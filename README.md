# Transcriber text core in Dafny

This project models the deterministic core of the Python helpers behind the Transcriber
application (`src/lib/python`). Those helpers download a YouTube video's audio, transcribe
it with Whisper and translate it with NLLB, MarianMT, googletrans or a small built-in
dictionary. They also clean transcript datasets and fine-tune the NLLB model. The
machine-learning models, the network and the subprocesses become parameters of the model.
What remains is string and list processing, and its properties are proved:

- `Text`: the parts of Python's `str` the code relies on. These are `isspace`/`\s`,
  `split()`, `" ".join`, `strip`, `replace`, ASCII `lower`/`upper`, `re.sub(r'\s+', ' ', s)`
  and fixed-size slicing.
- `Chunker`: the sentence chunker `_split_text`. `nllb_translator.py` and `ai_translator.py`
  carry identical copies of it, so it is defined once. It is a function `Chunks`, together
  with the imperative method `SplitText` proved equal to it.
- `HebrewText`: `_fix_hebrew_text`. Both translators carry the same copy.
- `Nllb`: `NLLBTranslator` with its dictionary fallback, language-code conversion,
  `translate` and `process_translation_request`. The model inference is a function
  parameter.
- `AiTranslator`: `AITranslator` with its model name, its backend choice, its own dictionary
  fallback, the googletrans chunking with a per-chunk fallback, and `translate`.
- `TextCleaner`: `clean_text`, `calculate_quality_score`, `_get_shingles` and
  `clean_dataset`. Each record is a `class` whose fields the cleaner overwrites in place.
- `Transcriber`: `clean_transcript`, the fallback rule of `transcribe_audio` and the retry
  loop of `translate_text`.
- `Downloader`: `extract_youtube_video_id`, the extension probe of
  `download_audio_using_ytdlp` and the strategy chain of `download_youtube_video`.
- `ImproveModel`: `prepare_training_pairs`, its own `convert_lang_code` and the batch
  partition of the fine-tuning loop.

Abstractions:

- File existence is a set of paths.
- Each download strategy is an `Option` of a path.
- A model or service call is a function from its input to its output. It returns `None`
  where the Python call raises.
- Python's `md5` content hash is modelled as the content itself. Two records have the same
  hash exactly when their contents are equal.

## Model

| member | source | states |
|---|---|---|
| `Text.SplitJoin` | src/lib/python/nllb_translator.py:407-433 | `split()` undoes `" ".join` of non-empty words without whitespace, so the words a translator joins are the words it produced |
| `Text.Strip` | src/lib/python/transcriber.py:109 | `strip()` returns a slice of its input with only whitespace cut off before and after it, and that slice is empty or starts and ends with non-whitespace |
| `Text.StripKeepsContent` | src/lib/python/transcriber.py:109 | `strip()` keeps every non-whitespace character, in order |
| `Text.StripEmptyIffBlank` | src/lib/python/nllb_translator.py:271-272 | `s.strip()` is empty exactly when `s` holds only whitespace, the test `not text.strip()` the translators use |
| `Text.CollapseSpacesChars` | src/lib/python/text_cleaner.py:77 | collapsing writes only ' ' of its own; every other output character is a non-whitespace character of the input |
| `Text.CollapseSpacesProperties` | src/lib/python/text_cleaner.py:77 | `re.sub(r'\s+', ' ', s)` leaves no two adjacent whitespace characters, is empty iff the input is, starts with whitespace iff the input does, and keeps every non-whitespace character in order |
| `Text.FixedSlicesProperties` | src/lib/python/nllb_translator.py:393-395 | slicing a sentence every `n` characters gives pieces of 1..n characters, all but the last exactly `n`, ceil(len/n) in number, that concatenate back to the sentence |
| `Chunker.FirstBreak` | src/lib/python/nllb_translator.py:381 | the split point found is the first whitespace run that follows `.`, `!` or `?`; none is skipped |
| `Chunker.SplitSentencesContent` | src/lib/python/nllb_translator.py:381 | the sentence split loses only whitespace: the sentences hold the text's non-whitespace characters in order |
| `Chunker.StepBounded` | src/lib/python/nllb_translator.py:386-398 | one packing step keeps every finished chunk and the pending chunk within `max_length` and non-empty |
| `Chunker.StepContent` | src/lib/python/nllb_translator.py:386-398 | one packing step adds exactly the sentence's non-whitespace characters to what is held, after what was held before |
| `Chunker.PackInvariant` | src/lib/python/nllb_translator.py:386-401 | after all sentences the chunks are bounded and hold the sentences' non-whitespace content in order |
| `Chunker.ChunksWithinLimit` | src/lib/python/nllb_translator.py:386-398 | every chunk is at most `max_length` characters long |
| `Chunker.ChunksNonEmpty` | src/lib/python/nllb_translator.py:390-401 | no chunk is empty |
| `Chunker.ChunksPreserveContent` | src/lib/python/nllb_translator.py:381-401 | the chunks together hold exactly the input's non-whitespace characters, in order |
| `Chunker.LongSentenceFlushes` | src/lib/python/nllb_translator.py:389-396 | a sentence over `max_length` first flushes the pending chunk, then is emitted as full-length slices and one last slice that concatenate to the sentence, and leaves no pending chunk |
| `Chunker.SplitText` | src/lib/python/nllb_translator.py:377-403 | the loop of `_split_text` (the same code as `ai_translator.py` lines 190-216) returns `Chunks`: non-empty chunks within the limit that keep the text's content |
| `HebrewText.ReplaceIsDropSpaceBefore` | src/lib/python/nllb_translator.py:438 | `replace(" " + m, m)` deletes exactly the spaces that stand right before a mark `m` in the input |
| `HebrewText.DropSpaceBeforeOnlyDeletesSpaces` | src/lib/python/nllb_translator.py:438-443 | one replacement never lengthens the text and changes nothing but spaces |
| `HebrewText.FixHebrewTextIsDrops` | src/lib/python/nllb_translator.py:435-445 | `_fix_hebrew_text` is six space deletions, for `.`, `,`, `:`, `;`, `!`, `?` in that order |
| `HebrewText.FixHebrewTextOnlyDeletesSpaces` | src/lib/python/nllb_translator.py:435-445 | the fix (the same in `ai_translator.py` lines 242-252) is never longer than its input and keeps every character other than a space |
| `HebrewText.SinglePassLeavesOneSpace` | src/lib/python/nllb_translator.py:438 | one pass is not repeated: two spaces before a mark leave one |
| `Nllb.NewTranslator` | src/lib/python/nllb_translator.py:15-217 | a new translator carries the fixed built-in dictionary, whatever its languages |
| `Nllb.ConvertLangCode` | src/lib/python/nllb_translator.py:460-468 | the seven ISO keys map to their NLLB codes; any other code containing `_` passes through; everything else becomes `eng_Latn` |
| `Nllb.ConvertLangCodeIdempotent` | src/lib/python/nllb_translator.py:449-468 | every result contains `_`, so converting twice is converting once |
| `Nllb.TranslatedWords` | src/lib/python/nllb_translator.py:407-424 | one translated entry per whitespace-separated word |
| `Nllb.UnknownWordKept` | src/lib/python/nllb_translator.py:410-423 | a word whose lower-cased stem is not a key comes out exactly as it went in, trailing mark included |
| `Nllb.UpperCaseKeyUnreachable` | src/lib/python/nllb_translator.py:418-419 | the dictionary holds the key `"AI"`, yet a lower-cased lookup key can never equal it |
| `Nllb.UnknownWordsPassThrough` | src/lib/python/nllb_translator.py:405-433 | for a non-Hebrew target, text with no known word comes back as its words joined by single spaces |
| `Nllb.SimpleTranslate` | src/lib/python/nllb_translator.py:405-433 | the word loop of `_simple_translate` computes `SimpleTranslation`: the words translated in order, joined, plus the limited-translation note exactly for `heb_Hebr` |
| `Nllb.Translate` | src/lib/python/nllb_translator.py:268-371 | `translate` gives "" for blank text, the model path when the model loaded, and the dictionary fallback otherwise |
| `Nllb.ModelTranslate` | src/lib/python/nllb_translator.py:276-365 | the model path translates each chunk of `_split_text` in order, joins them with spaces and applies the Hebrew fix exactly for `heb_Hebr` |
| `Nllb.ProcessTranslationRequest` | src/lib/python/nllb_translator.py:471-511 | the request succeeds exactly when the translation is not blank, and the success record carries the original and converted language codes and whether the model was used |
| `Nllb.BlankRequestFails` | src/lib/python/nllb_translator.py:494-511 | a blank text always gives a blank translation, so its request reports failure |
| `Nllb.HebrewFallbackSucceeds` | src/lib/python/nllb_translator.py:426-431 | with the dictionary fallback and an English-to-Hebrew request, non-blank text never gives a blank translation |
| `Nllb.HebrewRequestTranslator` | src/lib/python/nllb_translator.py:479-484 | a request for `he` builds a translator whose target is `heb_Hebr` |
| `Nllb.NoteNotBlank` | src/lib/python/nllb_translator.py:430 | the limited-translation note makes any result non-blank |
| `AiTranslator.ModelName` | src/lib/python/ai_translator.py:76-82 | all three branches give `Helsinki-NLP/opus-mt-<src>-<tgt>` |
| `AiTranslator.NewTranslator` | src/lib/python/ai_translator.py:11-114 | MarianMT is used iff it loads; a model counts as loaded iff MarianMT or googletrans is available; the dictionary is fixed |
| `AiTranslator.CleanWord` | src/lib/python/ai_translator.py:225 | stripping the punctuation set and lower-casing ASCII letters never lengthens the word |
| `AiTranslator.PrefixAlwaysEmpty` | src/lib/python/ai_translator.py:229-231 | the computed `prefix` is always empty and `punctuation` is the word's tail after `len(clean_word)` characters |
| `AiTranslator.HitEntry` | src/lib/python/ai_translator.py:227-231 | a dictionary hit emits the entry followed by `word[len(clean_word):]` |
| `AiTranslator.BracketedHitKeepsTail` | src/lib/python/ai_translator.py:225-231 | a word with leading punctuation keeps the tail after `len(clean_word)` characters and loses the leading mark: `(hello)` gives `dict["hello"] + "o)"` |
| `AiTranslator.UnknownWordsPassThrough` | src/lib/python/ai_translator.py:217-240 | when no word's clean form is a key, the result is the text's words one space apart, in input order, or reversed exactly for target `he` |
| `AiTranslator.TranslatedWords` | src/lib/python/ai_translator.py:220-234 | one translated entry per input word |
| `AiTranslator.Reverse` | src/lib/python/ai_translator.py:238 | `reversed` puts entry `i` at position `len - 1 - i` |
| `AiTranslator.SimpleTranslationWords` | src/lib/python/ai_translator.py:217-240 | when every lower-case key maps to a single word, the result splits back into exactly the translated words: as many as the input has, in input order, or reversed exactly for target `he` |
| `AiTranslator.SimpleDictionaryMapsToWords` | src/lib/python/ai_translator.py:17-64 | every lower-case key of the dictionary maps to a single word; the one two-word value sits under `"AI"`, which the lower-cased `clean_word` of line 225 never equals |
| `AiTranslator.BuiltTranslatorWordForWord` | src/lib/python/ai_translator.py:217-240 | for every translator `__init__` builds, `_simple_translate` (lines 217-240) gives one output word per input word, in input order, or reversed exactly for target `he` |
| `AiTranslator.SimpleTranslate` | src/lib/python/ai_translator.py:218-240 | the word loop of `_simple_translate` computes `SimpleTranslation` |
| `AiTranslator.GoogleChunksCoverText` | src/lib/python/ai_translator.py:162-163 | the googletrans chunks are 1..5000 characters long, ceil(len/5000) in number, and concatenate to the text |
| `AiTranslator.GooglePieces` | src/lib/python/ai_translator.py:164-176 | one translated piece per chunk, in chunk order |
| `AiTranslator.ShortTextOneChunk` | src/lib/python/ai_translator.py:162-176 | a text of 1..5000 characters is one chunk, so the result is the service's translation of the whole text, or exactly its dictionary translation when the call fails |
| `AiTranslator.Translate` | src/lib/python/ai_translator.py:116-184 | `translate` gives "" for blank text and otherwise the MarianMT path, the googletrans path or the dictionary fallback, according to the backend |
| `AiTranslator.MarianTranslate` | src/lib/python/ai_translator.py:124-155 | the MarianMT path translates each `_split_text` chunk in order, joins them and applies the Hebrew fix exactly for `he` |
| `AiTranslator.GoogleTranslate` | src/lib/python/ai_translator.py:158-178 | the chunk loop joins one piece per 5000-character chunk with spaces |
| `TextCleaner.RemoveControls` | src/lib/python/text_cleaner.py:80 | the result is a subsequence of the input that holds a character exactly when the input holds it and it is not in `\x00-\x1F` or `\x7F-\x9F` |
| `TextCleaner.RemoveControlsKeepsClean` | src/lib/python/text_cleaner.py:80 | text without control characters comes back unchanged |
| `TextCleaner.CloseAt` | src/lib/python/text_cleaner.py:83 | the scan finds the first `>` at or after a position |
| `TextCleaner.RemoveTags` | src/lib/python/text_cleaner.py:83 | tag removal only deletes characters: the result is a subsequence of the input |
| `TextCleaner.RemoveTagsWithoutOpen` | src/lib/python/text_cleaner.py:83 | text without `<` holds no tag and comes back unchanged |
| `TextCleaner.TagFreeHasNoTag` | src/lib/python/text_cleaner.py:83 | text of the shape the removal leaves contains no `<…>` with a non-`>` character inside |
| `TextCleaner.RemoveTagsTagFree` | src/lib/python/text_cleaner.py:83 | tag removal leaves a `<` only directly before `>` or with no `>` after it |
| `TextCleaner.RemoveTagsExamples` | src/lib/python/text_cleaner.py:83 | example: `a<b>c` loses its tag, `<>` and an unclosed `<` stay |
| `TextCleaner.CleanText` | src/lib/python/text_cleaner.py:71-85 | `clean_text` gives "" for "" and is never longer than its input |
| `TextCleaner.CleanTextProperties` | src/lib/python/text_cleaner.py:71-85 | the cleaned text holds no control character and no tag |
| `TextCleaner.CleanTextKeepsPlainText` | src/lib/python/text_cleaner.py:71-85 | the cleaned text is a subsequence of the collapsed and stripped text, and equals it when the text's only control characters are whitespace and it holds no `<` |
| `TextCleaner.Penalty` | src/lib/python/text_cleaner.py:98-119 | the five penalties 20, 10, 15, 10 and 10 add up to at most 65 |
| `TextCleaner.QualityScoreRange` | src/lib/python/text_cleaner.py:87-124 | the score is 30 or lies in [5, 70], so the clamp to [0, 100] never binds |
| `TextCleaner.DefaultThresholdKeeps` | src/lib/python/text_cleaner.py:35-52 | with the default threshold 60 a complete record passes iff its penalties total at most 10, so a passing record is neither too short nor badly proportioned |
| `TextCleaner.MissingTextScores30` | src/lib/python/text_cleaner.py:92-96 | a missing or empty transcript or translation scores 30 |
| `TextCleaner.CalculateQualityScore` | src/lib/python/text_cleaner.py:87-124 | the step-by-step deductions compute `QualityScore`, which is 30 or in [5, 70] |
| `TextCleaner.Processed` | src/lib/python/text_cleaner.py:46-58 | every processed record gets its score as `quality` |
| `TextCleaner.KeptIndices` | src/lib/python/text_cleaner.py:60-66 | the kept positions all lie within the records scanned |
| `TextCleaner.SeenContentsMeaning` | src/lib/python/text_cleaner.py:61-65 | `seen_hashes` holds exactly the contents of earlier records that passed the threshold |
| `TextCleaner.KeptIndicesProperties` | src/lib/python/text_cleaner.py:45-66 | the kept records appear in input order, all passed the threshold, and no two have the same content |
| `TextCleaner.KeptIndicesPrefix` | src/lib/python/text_cleaner.py:45-66 | scanning further only appends to the kept list |
| `TextCleaner.FirstSurvives` | src/lib/python/text_cleaner.py:60-66 | every passing record's content is kept, by that record or by an earlier one |
| `TextCleaner.DedupStep` | src/lib/python/text_cleaner.py:61-66 | a failing or already-seen record changes nothing; a new passing one is kept and its content recorded |
| `TextCleaner.DeduplicateSimilar` | src/lib/python/text_cleaner.py:133-134 | zero or one record come back unchanged |
| `TextCleaner.ScoreAndClean` | src/lib/python/text_cleaner.py:47-61 | a record is scored in place, cleaned in place if it passes, and its content is reported when it passes |
| `TextCleaner.ProcessRecord` | src/lib/python/text_cleaner.py:45-65 | processing record `n` changes that record alone |
| `TextCleaner.FilterRecords` | src/lib/python/text_cleaner.py:40-66 | the loop scores every record, including dropped ones, and keeps exactly the first record of each content among those that pass |
| `TextCleaner.CleanDataset` | src/lib/python/text_cleaner.py:40-69 | `clean_dataset` processes every record in place and hands the kept records, in input order, to the similarity step |
| `TextCleaner.ShingleSet` | src/lib/python/text_cleaner.py:170 | there are at most as many shingles as window positions |
| `TextCleaner.Shingles` | src/lib/python/text_cleaner.py:165-170 | fewer than `k` words give the single joined string; otherwise there are at most `len(words) - k + 1` shingles |
| `TextCleaner.ShingleSetWords` | src/lib/python/text_cleaner.py:170 | every shingle splits back into one window of consecutive words |
| `TextCleaner.ShingleHasKWords` | src/lib/python/text_cleaner.py:165-170 | with at least `k` words every shingle has exactly `k` words, taken consecutively from the text |
| `TextCleaner.BlankTextShingle` | src/lib/python/text_cleaner.py:167-169 | a text without words has the one shingle `""` |
| `Transcriber.DropSpaceBeforeMarksContent` | src/lib/python/transcriber.py:100 | the mark fix deletes whitespace only: the non-whitespace characters stay, in order |
| `Transcriber.DropSpaceBeforeMarksProperties` | src/lib/python/transcriber.py:100 | on single-spaced text the mark fix leaves no whitespace before `. , ! ? : ;` and keeps the spacing single |
| `Transcriber.CapitalAtShape` | src/lib/python/transcriber.py:103 | in single-spaced text a match is a sentence end, one space and a lower-case letter |
| `Transcriber.CapitalizeFromLength` | src/lib/python/transcriber.py:103 | capitalising after sentence ends keeps the length |
| `Transcriber.CapitalizeFromPointwise` | src/lib/python/transcriber.py:103 | each character is upper-cased exactly when it is a lower-case letter after a sentence end and a space, and kept otherwise |
| `Transcriber.CapitalizeProperties` | src/lib/python/transcriber.py:103 | after that pass no lower-case letter follows a sentence end and a space, the spacing facts still hold, and every character is kept or is a lower-case letter raised |
| `Transcriber.CapitalizeFirst` | src/lib/python/transcriber.py:106-107 | only the first character changes, to its ASCII upper case |
| `Transcriber.CapitalizeFirstRaises` | src/lib/python/transcriber.py:106-107 | upper-casing the first character keeps every character or raises a lower-case letter |
| `Transcriber.CapitalizeFirstProperties` | src/lib/python/transcriber.py:106-107 | upper-casing the first character keeps all three spacing and capital facts |
| `Transcriber.StripProperties` | src/lib/python/transcriber.py:109 | the final strip keeps all three facts |
| `Transcriber.CleanTranscriptKeepsText` | src/lib/python/transcriber.py:92-109 | the cleaned transcript's non-whitespace characters are the input's, in order, except that some lower-case ASCII letters are raised |
| `Transcriber.CleanTranscriptProperties` | src/lib/python/transcriber.py:92-109 | the cleaned transcript has no outer whitespace, no two adjacent whitespace characters, no whitespace before a mark and no lower-case letter after a sentence end and a space |
| `Transcriber.SpacingPassesExamples` | src/lib/python/transcriber.py:97-100 | example: the two spacing passes leave ` hi` and `hi` unchanged |
| `Transcriber.CapitalizeExamples` | src/lib/python/transcriber.py:103 | example: the sentence-start pass leaves ` hi` and `hi` unchanged |
| `Transcriber.StripExamples` | src/lib/python/transcriber.py:109 | example: `strip` turns ` hi` into `hi` and leaves `Hi` alone |
| `Transcriber.LowerFirstLetterRaised` | src/lib/python/transcriber.py:92-109 | a text that starts with a lower-case letter is cleaned to one that starts with that letter upper-cased |
| `Transcriber.LeadingSpaceShieldsFirstLetter` | src/lib/python/transcriber.py:92-109 | when the text starts with whitespace and its first other character is a lower-case letter, the upper-casing hits the whitespace and the cleaned text starts with that letter still in lower case |
| `Transcriber.FirstLetterCapitalised` | src/lib/python/transcriber.py:106-109 | example of `LowerFirstLetterRaised` on a whole string: `hi` becomes `Hi` |
| `Transcriber.TranscribeAudio` | src/lib/python/transcriber.py:21-90 | a missing file fails before any transcription; a stripped Whisper text under 10 characters from a file under 100000 bytes gives the fixed English fallback; otherwise the cleaned transcript with the detected language, `en` by default |
| `Transcriber.TranslateText` | src/lib/python/transcriber.py:111-139 | empty text makes no call; at most 3 attempts; the first success is returned; after 3 failures the result is "" |
| `Downloader.LeftmostMatch` | src/lib/python/downloader.py:61 | the search finds the leftmost position where the pattern matches |
| `Downloader.ExtractVideoId` | src/lib/python/downloader.py:59-64 | an extracted id is 11 characters from `[0-9A-Za-z_-]`, and there is none exactly when the pattern matches nowhere |
| `Downloader.ExtractVideoIdLeftmost` | src/lib/python/downloader.py:61-63 | the id is the 11 characters after `v=` or `/` at the leftmost match |
| `Downloader.LongerRunGivesPrefix` | src/lib/python/downloader.py:61 | nothing is checked after the 11 characters: a 12-character run after `/` gives its first 11 |
| `Downloader.Candidates` | src/lib/python/downloader.py:331-337 | the probe checks six paths: the mp3 path, then one for each of the five extensions |
| `Downloader.FirstExisting` | src/lib/python/downloader.py:332-341 | the probe returns an existing candidate, and returns nothing exactly when no candidate exists |
| `Downloader.FirstExistingIsFirst` | src/lib/python/downloader.py:336-339 | the path returned is the first existing one in probe order |
| `Downloader.ProbeOutput` | src/lib/python/downloader.py:330-341 | the probe loop returns `FirstExisting` of the candidates and checks no path after the one it returns |
| `Downloader.DownloadAudioUsingYtdlp` | src/lib/python/downloader.py:296-344 | a non-zero exit gives nothing and probes no path; otherwise the probe's result |
| `Downloader.TemplateSubstitution` | src/lib/python/downloader.py:580 | replacing `%(ext)s` in `<dir>/<id>.%(ext)s` gives `<dir>/<id>.<ext>` |
| `Downloader.Winner` | src/lib/python/downloader.py:583-599 | the winning strategy is the first in order whose path is truthy |
| `Downloader.TryStrategies` | src/lib/python/downloader.py:583-599 | strategies run in the fixed order until the first truthy path, which is returned; later ones are not run |
| `Downloader.DownloadYoutubeVideo` | src/lib/python/downloader.py:562-628 | no id gives failure with no strategy run; test audio is tried only after all four strategies fail, and only then is a result marked as test audio |
| `ImproveModel.ConvertLangCode` | src/lib/python/improve_model.py:73-86 | the eight ISO keys map to their NLLB codes and anything else to `eng_Latn`, so every result is one of the eight codes |
| `ImproveModel.ConvertLangCodeAgainstTranslator` | src/lib/python/improve_model.py:76-86 | this copy agrees with the translator's on its seven codes, differs on `it` and on NLLB-form codes, and is not idempotent |
| `ImproveModel.Kept` | src/lib/python/improve_model.py:51-53 | the kept items are usable items of the input |
| `ImproveModel.KeptAppend` | src/lib/python/improve_model.py:51-69 | filtering keeps input order: it distributes over concatenation |
| `ImproveModel.KeptExtremes` | src/lib/python/improve_model.py:51-53 | all-usable data is kept whole, and nothing is kept iff no item is usable |
| `ImproveModel.PrepareTrainingPairs` | src/lib/python/improve_model.py:47-71 | two lists of equal length, one entry per kept item in order: the NLLB source code, a space and the source text; and the target text unchanged |
| `ImproveModel.TotalBatches` | src/lib/python/improve_model.py:110-111 | `total_batches` is ceil(n/2): enough batches of two for every pair, and positive iff n is |
| `ImproveModel.Slice` | src/lib/python/improve_model.py:120-121 | a clamped slice is never longer than the batch size |
| `ImproveModel.TrainingBatches` | src/lib/python/improve_model.py:110-143 | the loop runs `total_batches` times with `current_batch` 1, 2, …; batches hold 1 or 2 pairs, all but the last exactly 2; together they cover the sources, and the targets too when the lists are the same length |
| `ImproveModel.PlanImprovement` | src/lib/python/improve_model.py:212-217 | training is aborted iff no item is usable, so `total_batches` is positive at the average-loss division |

## Left out

- Model loading, MarianMT/NLLB inference and tokenisation are a function parameter (`infer`).
  Fine-tuning, the optimiser, the losses and the model-directory renames are not modelled.
- googletrans and every network call are function parameters that return `None` where
  the call raises. `translator.py` is not part of this model.
- yt-dlp, pytube, moviepy, ffmpeg and the espeak scripts are not modelled. Each strategy is
  an `Option` of a path and the CLI exit code is a parameter. The global config writes and
  SSL patching are left out too, and so is `os.makedirs`.
- Whisper and its output suppression are left out. Whisper's result, or the exception it
  raises, is a parameter.
- `transcribe_and_translate` is not modelled. It reads captured standard output.
- The JSON printing, logging, timing, progress percentages and every `main` (argument
  handling and file I/O) are left out.
- The exception paths that turn an error into a message string are left out. These are
  `translate`'s `[Translation error: …]` result and the outer `except` of
  `download_youtube_video` and `process_translation_request`.
- `process_translation_request` in `ai_translator.py` is left out. It reports success
  whenever `translate` returns, with no rule of its own.
- `TextCleaner.DeduplicateSimilar`: only the guard for zero or one record is stated. The
  MinHash/LSH grouping is probabilistic library code and is a function parameter.
- The md5 content hash is modelled as the content itself, that is, as if it had no
  collisions.
- `TextCleaner.CleanDataset`: requires the records to be distinct objects. The Python list
  could hold the same dictionary twice and would then rescore it; aliasing is not modelled.
- `Text.Lower` and `Text.UpperChar`: case mapping covers ASCII letters only. Python's
  `lower`/`upper` use full Unicode case mapping. That changes results for non-ASCII input,
  in the three places named below. The sentence-start pass at
  src/lib/python/transcriber.py:103 is not affected: its pattern matches `[a-z]` only.
- `AiTranslator.CleanWord`: lower-cases ASCII letters only. Python lower-cases more. For
  example `"clic\u212A"` (ending in the Kelvin sign) lower-cases to `"click"` and is a
  dictionary hit at src/lib/python/ai_translator.py:225, which the model misses. `"İ".lower()`
  is two code points long, so the real `clean_word` can be longer than the word. "Never
  lengthens" holds only for ASCII lower-casing.
- `Nllb.TranslateWord`: the same ASCII-only lower-casing at
  src/lib/python/nllb_translator.py:418 misses the hits that Python's full lower-casing
  makes, such as through the Kelvin sign.
- `Transcriber.CapitalizeFirst`: raises an ASCII first letter only. Python's
  `text[0].upper()` at src/lib/python/transcriber.py:107 also raises letters of other
  scripts, so Cyrillic `"п"` becomes `"П"`. It can also lengthen the text: `"ß"` becomes
  `"SS"`. The model leaves such characters unchanged. So "only the first character changes"
  holds only for the ASCII mapping, and so do `Transcriber.LowerFirstLetterRaised` and
  `Transcriber.CleanTranscriptKeepsText`, which build on it.
- The quality score's float ratio tests are restated as integer cross-multiplications of
  the lengths. Floating-point rounding at the exact boundary is not modelled.
- The NLLB model path tries up to three ways of generating each chunk, reloading the
  tokenizer on failure. All of them are folded into `infer`.
- Translator objects are values: after construction `translate` never changes them, so
  they are not classes.
