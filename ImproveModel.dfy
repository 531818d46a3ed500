/** The data side of fine-tuning: turning training records into (source, target) pairs, the
    ISO-to-NLLB code map this script carries, and the partition of the pairs into batches of
    two. The model, the optimiser and the losses are not part of this model. */
module ImproveModel {
  import opened Wrappers
  import Nllb

  // ---------------------------------------------------------------- convert_lang_code

  /** The mapping inside `convert_lang_code`: the translator's seven codes and Italian. */
  const LangMapping: map<string, string> := map[
    "en" := "eng_Latn", "he" := "heb_Hebr", "ar" := "arb_Arab", "ru" := "rus_Cyrl",
    "es" := "spa_Latn", "fr" := "fra_Latn", "de" := "deu_Latn", "it" := "ita_Latn"]

  const DefaultCode: string := "eng_Latn"

  /** `convert_lang_code(standard_code)`: `mapping.get(standard_code, 'eng_Latn')`. */
  function ConvertLangCode(code: string): (r: string)
    ensures r in LangMapping.Values
    ensures code in LangMapping ==> r == LangMapping[code]
    ensures code !in LangMapping ==> r == DefaultCode
  {
    assert LangMapping["en"] == DefaultCode;
    if code in LangMapping then LangMapping[code] else DefaultCode
  }

  /** This copy and the translator's agree on the translator's seven codes. They differ on
      Italian, which only this copy knows, and on codes already in NLLB form, which the
      translator passes through and this copy sends to English. So this copy is not
      idempotent. */
  lemma ConvertLangCodeAgainstTranslator()
    ensures forall code :: code in Nllb.SupportedLangs ==> ConvertLangCode(code) == Nllb.ConvertLangCode(code)
    ensures ConvertLangCode("it") == "ita_Latn" && Nllb.ConvertLangCode("it") == "eng_Latn"
    ensures ConvertLangCode("heb_Hebr") == "eng_Latn" && Nllb.ConvertLangCode("heb_Hebr") == "heb_Hebr"
    ensures ConvertLangCode(ConvertLangCode("he")) != ConvertLangCode("he")
  {
    assert "heb_Hebr"[3] == '_';
    assert "heb_Hebr" != "eng_Latn" by { assert "heb_Hebr"[0] != "eng_Latn"[0]; }
  }

  // ---------------------------------------------------------------- prepare_training_pairs

  /** A record of the training data file; a missing key is `None`. */
  datatype Item = Item(sourceText: Option<string>, targetText: Option<string>,
                       sourceLanguage: Option<string>, targetLanguage: Option<string>)

  /** A value Python treats as true: present and not "". */
  predicate Truthy(v: Option<string>) {
    v.Some? && v.value != ""
  }

  /** Whether `prepare_training_pairs` keeps the item. */
  predicate Usable(item: Item) {
    Truthy(item.sourceText) && Truthy(item.targetText)
  }

  /** The kept items, in input order. */
  function Kept(data: seq<Item>): (r: seq<Item>)
    ensures |r| <= |data|
    ensures forall i :: 0 <= i < |r| ==> Usable(r[i]) && r[i] in data
  {
    if data == [] then []
    else Kept(data[..|data| - 1]) + (if Usable(data[|data| - 1]) then [data[|data| - 1]] else [])
  }

  /** The source entry of a kept item: its NLLB language code, a space and its text. */
  function SourceEntry(item: Item): string
    requires Usable(item)
  {
    ConvertLangCode(item.sourceLanguage.GetOr("en")) + " " + item.sourceText.value
  }

  /** Keeping distributes over concatenation: items are filtered one by one and never
      reordered. */
  lemma {:induction false} KeptAppend(a: seq<Item>, b: seq<Item>)
    ensures Kept(a + b) == Kept(a) + Kept(b)
    decreases |b|
  {
    if b == [] {
      assert a + b == a;
    } else {
      var init, last := b[..|b| - 1], b[|b| - 1];
      assert (a + b)[..|a + b| - 1] == a + init;
      assert (a + b)[|a + b| - 1] == last;
      KeptAppend(a, init);
    }
  }

  /** An item is kept exactly when both texts are non-empty: usable data passes whole, and
      data with no usable item gives nothing. */
  lemma {:induction false} KeptExtremes(data: seq<Item>)
    ensures (forall i :: 0 <= i < |data| ==> Usable(data[i])) ==> Kept(data) == data
    ensures (forall i :: 0 <= i < |data| ==> !Usable(data[i])) <==> Kept(data) == []
  {
    if data != [] {
      var init := data[..|data| - 1];
      KeptExtremes(init);
      assert data == init + [data[|data| - 1]];
      if Kept(data) == [] {
        forall i | 0 <= i < |data| ensures !Usable(data[i]) {
          if i < |data| - 1 {
            assert data[i] == init[i];
          }
        }
      }
    }
  }

  /** `prepare_training_pairs(data, tokenizer)`: one source and one target entry per kept
      item, in order. The target language is read but unused. */
  method PrepareTrainingPairs(data: seq<Item>) returns (sourceTexts: seq<string>, targetTexts: seq<string>)
    ensures |sourceTexts| == |targetTexts| == |Kept(data)|
    ensures forall i :: 0 <= i < |sourceTexts| ==>
      sourceTexts[i] == SourceEntry(Kept(data)[i]) && targetTexts[i] == Kept(data)[i].targetText.value
  {
    sourceTexts, targetTexts := [], [];
    for k := 0 to |data|
      invariant |sourceTexts| == |targetTexts| == |Kept(data[..k])|
      invariant forall i :: 0 <= i < |sourceTexts| ==>
        sourceTexts[i] == SourceEntry(Kept(data[..k])[i]) && targetTexts[i] == Kept(data[..k])[i].targetText.value
    {
      var item := data[k];
      assert data[..k + 1][..k] == data[..k];
      if !Truthy(item.sourceText) || !Truthy(item.targetText) {
        continue;
      }
      var srcLang := item.sourceLanguage.GetOr("en");
      var tgtLang := item.targetLanguage.GetOr("he");
      var srcLangCode := ConvertLangCode(srcLang);
      var tgtLangCode := ConvertLangCode(tgtLang);
      var sourceWithLang := srcLangCode + " " + item.sourceText.value;
      sourceTexts := sourceTexts + [sourceWithLang];
      targetTexts := targetTexts + [item.targetText.value];
    }
    assert data[..|data|] == data;
  }

  // ---------------------------------------------------------------- batch partition

  const BatchSize: nat := 2

  /** `total_batches = (len(source_texts) + batch_size - 1) // batch_size`: the ceiling of
      `n / 2`, enough batches of two for every pair and no more. */
  function TotalBatches(n: nat): (t: nat)
    ensures BatchSize * t >= n
    ensures BatchSize * t < n + BatchSize
    ensures n > 0 <==> t > 0
  {
    (n + BatchSize - 1) / BatchSize
  }

  /** `s[i:j]` for `0 <= i <= j`: the bounds are clamped to the length. */
  function Slice(s: seq<string>, i: nat, j: nat): (r: seq<string>)
    requires i <= j
    ensures |r| <= j - i
  {
    if i >= |s| then [] else s[i..if j <= |s| then j else |s|]
  }

  /** The batches laid end to end. */
  function Concat(batches: seq<seq<string>>): seq<string> {
    if batches == [] then [] else Concat(batches[..|batches| - 1]) + batches[|batches| - 1]
  }

  /** The batch taken at `i` extends the texts covered so far up to the next batch end. */
  lemma SliceExtends(texts: seq<string>, i: nat)
    requires i < |texts|
    ensures var end := if i + BatchSize <= |texts| then i + BatchSize else |texts|;
      texts[..end] == texts[..i] + Slice(texts, i, i + BatchSize)
  {
  }

  /** Appending a batch appends its texts. */
  lemma ConcatSnoc(batches: seq<seq<string>>, batch: seq<string>)
    ensures Concat(batches + [batch]) == Concat(batches) + batch
  {
    assert (batches + [batch])[..|batches|] == batches;
  }

  /** The batch loop of `improve_model` for one epoch: `i` runs over `range(0, n, 2)` and
      each step takes `source_texts[i:i+2]` and `target_texts[i:i+2]`; `numbers` holds each
      step's `current_batch`. */
  method TrainingBatches(sourceTexts: seq<string>, targetTexts: seq<string>)
    returns (sourceBatches: seq<seq<string>>, targetBatches: seq<seq<string>>, numbers: seq<nat>)
    ensures |sourceBatches| == |targetBatches| == |numbers| == TotalBatches(|sourceTexts|)
    ensures forall k :: 0 <= k < |numbers| ==> numbers[k] == k + 1
    ensures forall k :: 0 <= k < |sourceBatches| ==> 1 <= |sourceBatches[k]| <= BatchSize
    ensures forall k :: 0 <= k < |sourceBatches| - 1 ==> |sourceBatches[k]| == BatchSize
    ensures Concat(sourceBatches) == sourceTexts
    ensures |targetTexts| == |sourceTexts| ==> Concat(targetBatches) == targetTexts
  {
    var n := |sourceTexts|;
    var totalBatches := TotalBatches(n);
    sourceBatches, targetBatches, numbers := [], [], [];
    var i := 0;
    while i < n
      invariant i == BatchSize * |sourceBatches| && i <= n + 1
      invariant |targetBatches| == |numbers| == |sourceBatches|
      invariant forall k :: 0 <= k < |numbers| ==> numbers[k] == k + 1
      invariant forall k :: 0 <= k < |sourceBatches| ==> 1 <= |sourceBatches[k]| <= BatchSize
      invariant forall k :: 0 <= k < |sourceBatches| - 1 ==> |sourceBatches[k]| == BatchSize
      invariant i <= n ==> forall k :: 0 <= k < |sourceBatches| ==> |sourceBatches[k]| == BatchSize
      invariant Concat(sourceBatches) == sourceTexts[..if i <= n then i else n]
      invariant |targetTexts| == n ==> Concat(targetBatches) == targetTexts[..if i <= n then i else n]
      decreases n - i
    {
      var batchSources := Slice(sourceTexts, i, i + BatchSize);
      var batchTargets := Slice(targetTexts, i, i + BatchSize);
      var currentBatch: nat := i / BatchSize + 1;
      SliceExtends(sourceTexts, i);
      if |targetTexts| == n {
        SliceExtends(targetTexts, i);
      }
      ConcatSnoc(sourceBatches, batchSources);
      ConcatSnoc(targetBatches, batchTargets);
      sourceBatches := sourceBatches + [batchSources];
      targetBatches := targetBatches + [batchTargets];
      numbers := numbers + [currentBatch];
      i := i + BatchSize;
    }
    assert sourceTexts[..n] == sourceTexts;
    assert targetTexts[..|targetTexts|] == targetTexts;
  }

  // ---------------------------------------------------------------- main

  /** What `main` does with the loaded data: abort when there are no pairs, otherwise train
      over `totalBatches` batches, the divisor of the average epoch loss. */
  datatype Run = NoPairs | Train(sourceTexts: seq<string>, targetTexts: seq<string>, totalBatches: nat)

  /** The part of `main` between loading the data and fine-tuning. */
  method PlanImprovement(data: seq<Item>) returns (run: Run)
    ensures run.NoPairs? <==> forall i :: 0 <= i < |data| ==> !Usable(data[i])
    ensures run.Train? ==> run.totalBatches > 0 && run.totalBatches == TotalBatches(|Kept(data)|)
    ensures run.Train? ==> |run.sourceTexts| == |run.targetTexts| == |Kept(data)|
  {
    var sourceTexts, targetTexts := PrepareTrainingPairs(data);
    KeptExtremes(data);
    if |sourceTexts| == 0 {
      return NoPairs;
    }
    run := Train(sourceTexts, targetTexts, TotalBatches(|sourceTexts|));
  }
}
