/** The NLLB translator object (`NLLBTranslator`) and `process_translation_request`, with the
    neural model itself abstracted: whether it loaded is a parameter and the model's
    translation of one chunk is a function parameter `infer`. */
module Nllb {
  import opened Text
  import Chunker
  import HebrewText

  /** `_get_supported_languages()`: ISO codes and their NLLB codes. */
  const SupportedLangs: map<string, string> := map[
    "en" := "eng_Latn", "he" := "heb_Hebr", "ar" := "arb_Arab", "ru" := "rus_Cyrl",
    "es" := "spa_Latn", "fr" := "fra_Latn", "de" := "deu_Latn"]

  /** The "basic words" part of `simple_dictionary`. */
  const BasicWords: map<string, string> := map[
    "hello" := "שלום",
    "world" := "עולם",
    "app" := "אפליקציה",
    "development" := "פיתוח",
    "great" := "מעולה",
    "android" := "אנדרואיד",
    "studio" := "סטודיו",
    "programming" := "תכנות",
    "application" := "יישום",
    "video" := "וידאו",
    "language" := "שפה",
    "project" := "פרויקט",
    "translator" := "מתרגם",
    "translation" := "תרגום",
    "artificial" := "מלאכותי",
    "intelligence" := "בינה",
    "AI" := "בינה מלאכותית"]

  /** The "additional words" part of `simple_dictionary` (the literal repeats "hello" and
      "video" with the same values; the dict keeps one entry for each). */
  const AdditionalWords: map<string, string> := map[
    "the" := "ה",
    "and" := "ו",
    "in" := "ב",
    "of" := "של",
    "to" := "ל",
    "for" := "בשביל",
    "with" := "עם",
    "this" := "זה",
    "that" := "זה",
    "is" := "הוא",
    "are" := "הם",
    "was" := "היה",
    "were" := "היו",
    "be" := "להיות",
    "have" := "יש",
    "has" := "יש",
    "a" := "",
    "an" := "",
    "on" := "על",
    "at" := "ב",
    "from" := "מ",
    "by" := "על ידי",
    "about" := "על",
    "like" := "כמו",
    "as" := "כ",
    "or" := "או",
    "but" := "אבל",
    "not" := "לא",
    "no" := "לא",
    "yes" := "כן",
    "good" := "טוב",
    "bad" := "רע",
    "new" := "חדש",
    "old" := "ישן",
    "big" := "גדול",
    "small" := "קטן",
    "high" := "גבוה",
    "low" := "נמוך",
    "more" := "יותר",
    "less" := "פחות",
    "many" := "הרבה",
    "few" := "מעט",
    "very" := "מאוד",
    "much" := "הרבה",
    "time" := "זמן",
    "day" := "יום",
    "night" := "לילה",
    "year" := "שנה",
    "month" := "חודש",
    "week" := "שבוע",
    "today" := "היום",
    "tomorrow" := "מחר",
    "yesterday" := "אתמול",
    "now" := "עכשיו",
    "then" := "אז",
    "here" := "כאן",
    "there" := "שם",
    "work" := "עבודה",
    "job" := "עבודה",
    "money" := "כסף",
    "home" := "בית",
    "house" := "בית",
    "family" := "משפחה",
    "friend" := "חבר",
    "people" := "אנשים",
    "person" := "אדם",
    "man" := "איש",
    "woman" := "אישה",
    "child" := "ילד",
    "children" := "ילדים",
    "boy" := "ילד",
    "girl" := "ילדה",
    "country" := "מדינה",
    "city" := "עיר",
    "street" := "רחוב",
    "water" := "מים",
    "food" := "אוכל",
    "book" := "ספר",
    "movie" := "סרט",
    "song" := "שיר",
    "music" := "מוזיקה",
    "computer" := "מחשב",
    "phone" := "טלפון",
    "internet" := "אינטרנט",
    "happy" := "שמח",
    "sad" := "עצוב",
    "love" := "אהבה",
    "help" := "עזרה",
    "start" := "התחלה",
    "end" := "סוף",
    "first" := "ראשון",
    "last" := "אחרון",
    "top" := "למעלה",
    "bottom" := "למטה",
    "right" := "ימין",
    "left" := "שמאל",
    "important" := "חשוב",
    "learn" := "ללמוד",
    "teach" := "ללמד",
    "student" := "תלמיד",
    "teacher" := "מורה",
    "school" := "בית ספר",
    "university" := "אוניברסיטה",
    "goodbye" := "להתראות",
    "thanks" := "תודה",
    "please" := "בבקשה",
    "sorry" := "סליחה",
    "excuse" := "סליחה",
    "how" := "איך",
    "why" := "למה",
    "what" := "מה",
    "when" := "מתי",
    "where" := "איפה",
    "who" := "מי",
    "which" := "איזה",
    "youtube" := "יוטיוב",
    "watch" := "לצפות",
    "view" := "צפייה",
    "can" := "יכול",
    "can't" := "לא יכול",
    "do" := "לעשות",
    "does" := "עושה",
    "don't" := "לא",
    "make" := "לעשות",
    "get" := "לקבל",
    "go" := "ללכת",
    "see" := "לראות",
    "look" := "להסתכל",
    "take" := "לקחת",
    "come" := "לבוא",
    "find" := "למצוא",
    "give" := "לתת",
    "use" := "להשתמש",
    "tell" := "לספר",
    "ask" := "לשאול",
    "say" := "לומר",
    "show" := "להראות",
    "try" := "לנסות",
    "need" := "צריך",
    "want" := "רוצה",
    "think" := "לחשוב",
    "know" := "לדעת",
    "feel" := "להרגיש",
    "live" := "לחיות",
    "run" := "לרוץ",
    "walk" := "ללכת",
    "write" := "לכתוב",
    "read" := "לקרוא",
    "listen" := "להקשיב",
    "hear" := "לשמוע",
    "speak" := "לדבר",
    "talk" := "לדבר",
    "call" := "לקרוא",
    "play" := "לשחק",
    "stop" := "לעצור",
    "wait" := "לחכות",
    "let" := "לתת",
    "let's" := "בואו",
    "leave" := "לעזוב",
    "keep" := "לשמור",
    "follow" := "לעקוב"]

  /** `simple_dictionary`: no key occurs in both parts with different values. */
  const SimpleDictionary: map<string, string> := BasicWords + AdditionalWords

  const LimitedTranslationNote: string :=
    "\n\n(" + "This is a limited translation using a simple dictionary. The full model hasn't been trained yet." + ")"

  /** The `max_length` that `translate` uses for `_split_text`. */
  const ChunkLength: nat := 400

  /** An `NLLBTranslator` after `__init__`: its language codes, its dictionary and whether
      the model loaded. Nothing in the modelled operations changes these fields afterwards. */
  datatype NllbTranslator =
    NllbTranslator(srcLang: string, tgtLang: string, simpleDictionary: map<string, string>,
                   modelLoaded: bool)

  /** `NLLBTranslator(src_lang, tgt_lang)`, with the outcome of loading the model. */
  function NewTranslator(srcLang: string, tgtLang: string, modelLoaded: bool): (t: NllbTranslator)
    ensures t.simpleDictionary == SimpleDictionary
  {
    NllbTranslator(srcLang, tgtLang, SimpleDictionary, modelLoaded)
  }

  // ---------------------------------------------------------------- language codes

  /** `convert_lang_code`: a supported ISO code maps to its NLLB code, a code containing `_`
      passes through, and anything else becomes English. */
  function ConvertLangCode(code: string): (r: string)
    ensures code in SupportedLangs ==> r == SupportedLangs[code]
    ensures code !in SupportedLangs && '_' in code ==> r == code
    ensures code !in SupportedLangs && '_' !in code ==> r == "eng_Latn"
  {
    if code in SupportedLangs then SupportedLangs[code]
    else if '_' in code then code
    else "eng_Latn"
  }

  /** Every converted code is in NLLB form, so converting again changes nothing. */
  lemma ConvertLangCodeIdempotent(code: string)
    ensures '_' in ConvertLangCode(code)
    ensures ConvertLangCode(ConvertLangCode(code)) == ConvertLangCode(code)
  {
    var r := ConvertLangCode(code);
    if code in SupportedLangs {
      assert r[3] == '_';
    } else if '_' !in code {
      assert r[3] == '_';
    }
  }

  // ---------------------------------------------------------------- dictionary fallback

  /** A word without the one trailing mark `_simple_translate` sets aside. */
  function Stem(word: string): string {
    if word != [] && word[|word| - 1] in ".,:;!?" then word[..|word| - 1] else word
  }

  /** The trailing mark that `_simple_translate` sets aside, or "". */
  function Mark(word: string): string {
    if word != [] && word[|word| - 1] in ".,:;!?" then [word[|word| - 1]] else ""
  }

  /** One word of `_simple_translate`: the lower-cased stem is looked up and the mark put back;
      a stem that is not a key stays as it was. */
  function TranslateWord(dict: map<string, string>, word: string): string {
    var key := Lower(Stem(word));
    if key in dict then dict[key] + Mark(word) else Stem(word) + Mark(word)
  }

  /** The list `translated_words`: one entry per word of `text.split()`, in order. */
  function TranslatedWords(dict: map<string, string>, text: string): (ws: seq<string>)
    ensures |ws| == |Split(text)|
  {
    seq(|Split(text)|, i requires 0 <= i < |Split(text)| => TranslateWord(dict, Split(text)[i]))
  }

  /** What `_simple_translate` returns. */
  function SimpleTranslation(t: NllbTranslator, text: string): string {
    var joined := Join(TranslatedWords(t.simpleDictionary, text), " ");
    if t.tgtLang == "heb_Hebr" then joined + LimitedTranslationNote else joined
  }

  /** A word whose lower-cased stem is not a key comes out exactly as it went in. */
  lemma UnknownWordKept(dict: map<string, string>, word: string)
    requires Lower(Stem(word)) !in dict
    ensures TranslateWord(dict, word) == word
  {
    if word != [] && word[|word| - 1] in ".,:;!?" {
      assert word[..|word| - 1] + [word[|word| - 1]] == word;
    } else {
      assert word + "" == word;
    }
  }

  /** The key "AI" is in the dictionary but no word can reach it: lookup lower-cases first. */
  lemma UpperCaseKeyUnreachable(word: string)
    ensures "AI" in SimpleDictionary
    ensures Lower(Stem(word)) != "AI"
  {
    var key := Lower(Stem(word));
    if |key| > 0 {
      assert key[0] == LowerChar(Stem(word)[0]) != 'A';
    }
  }

  /** Without dictionary hits and for a target other than Hebrew, the fallback gives back the
      words of the input joined by single spaces. */
  lemma UnknownWordsPassThrough(t: NllbTranslator, text: string)
    requires t.tgtLang != "heb_Hebr"
    requires forall i :: 0 <= i < |Split(text)| ==> Lower(Stem(Split(text)[i])) !in t.simpleDictionary
    ensures SimpleTranslation(t, text) == Join(Split(text), " ")
  {
    var dict := t.simpleDictionary;
    forall i | 0 <= i < |Split(text)| ensures TranslatedWords(dict, text)[i] == Split(text)[i] {
      UnknownWordKept(dict, Split(text)[i]);
    }
    assert TranslatedWords(dict, text) == Split(text);
  }

  /** `NLLBTranslator._simple_translate(text)`. */
  method SimpleTranslate(t: NllbTranslator, text: string) returns (r: string)
    ensures r == SimpleTranslation(t, text)
  {
    var words := Split(text);
    ghost var all := TranslatedWords(t.simpleDictionary, text);
    var translatedWords: seq<string> := [];
    for i := 0 to |words|
      invariant translatedWords == all[..i]
    {
      var word := words[i];
      var punctuation := "";
      if word != [] && word[|word| - 1] in ".,:;!?" {
        punctuation := [word[|word| - 1]];
        word := word[..|word| - 1];
      }
      assert word == Stem(words[i]) && punctuation == Mark(words[i]);
      var lowerWord := Lower(word);
      TakeSnoc(all, i);
      if lowerWord in t.simpleDictionary {
        translatedWords := translatedWords + [t.simpleDictionary[lowerWord] + punctuation];
      } else {
        translatedWords := translatedWords + [word + punctuation];
      }
    }
    TakeAll(all);
    if t.tgtLang == "heb_Hebr" {
      r := Join(translatedWords, " ");
      r := r + LimitedTranslationNote;
      return;
    }
    r := Join(translatedWords, " ");
  }

  // ---------------------------------------------------------------- translate

  /** The model path of `translate`: chunks from `_split_text`, each put through the model,
      joined by spaces, and fixed up for a Hebrew target. */
  function ModelTranslation(t: NllbTranslator, text: string, infer: string -> string): string {
    var chunks := Chunker.Chunks(text, ChunkLength);
    var joined := Join(seq(|chunks|, i requires 0 <= i < |chunks| => infer(chunks[i])), " ");
    if t.tgtLang == "heb_Hebr" then HebrewText.FixHebrewText(joined) else joined
  }

  /** What `translate` returns: "" for blank input, else the model path or the fallback. */
  function Translation(t: NllbTranslator, text: string, infer: string -> string): string {
    if IsBlank(text) then ""
    else if t.modelLoaded then ModelTranslation(t, text, infer)
    else SimpleTranslation(t, text)
  }

  /** `NLLBTranslator.translate(text)`. */
  method Translate(t: NllbTranslator, text: string, infer: string -> string) returns (r: string)
    ensures r == Translation(t, text, infer)
  {
    StripEmptyIffBlank(text);
    if text == "" || Strip(text) == "" {
      return "";
    }
    if t.modelLoaded {
      r := ModelTranslate(t, text, infer);
      return;
    }
    r := SimpleTranslate(t, text);
  }

  /** The model branch of `translate`: each `_split_text` chunk through the model. */
  method ModelTranslate(t: NllbTranslator, text: string, infer: string -> string) returns (r: string)
    ensures r == ModelTranslation(t, text, infer)
  {
    var sentences := Chunker.SplitText(text, ChunkLength);
    var translatedSentences: seq<string> := [];
    for i := 0 to |sentences|
      invariant translatedSentences == seq(i, k requires 0 <= k < i => infer(sentences[k]))
    {
      translatedSentences := translatedSentences + [infer(sentences[i])];
    }
    var fullTranslation := Join(translatedSentences, " ");
    if t.tgtLang == "heb_Hebr" {
      fullTranslation := HebrewText.FixHebrewText(fullTranslation);
    }
    return fullTranslation;
  }

  // ---------------------------------------------------------------- process_translation_request

  const EmptyResultError: string :=
    "Translation resulted in empty text. The model might not be properly loaded or configured."

  /** The JSON object `process_translation_request` prints. */
  datatype Response =
    | Translated(original: string, translation: string, sourceLanguage: string,
                 targetLanguage: string, sourceLanguageNllb: string, targetLanguageNllb: string,
                 usedNllb: bool)
    | Failed(error: string)

  /** The translator `process_translation_request` builds for a request. */
  function RequestTranslator(sourceLang: string, targetLang: string, modelLoaded: bool): NllbTranslator {
    NewTranslator(ConvertLangCode(sourceLang), ConvertLangCode(targetLang), modelLoaded)
  }

  /** `process_translation_request(text, source_lang, target_lang)`: success exactly when
      the translation is not blank. */
  method ProcessTranslationRequest(text: string, sourceLang: string, targetLang: string,
                                   modelLoaded: bool, infer: string -> string)
    returns (resp: Response)
    ensures var translation := Translation(RequestTranslator(sourceLang, targetLang, modelLoaded), text, infer);
      && (resp.Translated? <==> !IsBlank(translation))
      && (resp.Translated? ==> resp == Translated(text, translation, sourceLang, targetLang,
            ConvertLangCode(sourceLang), ConvertLangCode(targetLang), modelLoaded))
      && (resp.Failed? ==> resp.error == EmptyResultError)
  {
    var srcLangNllb := ConvertLangCode(sourceLang);
    var tgtLangNllb := ConvertLangCode(targetLang);
    var translator := NewTranslator(srcLangNllb, tgtLangNllb, modelLoaded);
    var translation := Translate(translator, text, infer);
    StripEmptyIffBlank(translation);
    if translation != "" && Strip(translation) != "" {
      resp := Translated(text, translation, sourceLang, targetLang, srcLangNllb, tgtLangNllb, modelLoaded);
    } else {
      resp := Failed(EmptyResultError);
    }
  }

  /** A blank request is reported as a failure, whatever the model does. */
  lemma BlankRequestFails(text: string, sourceLang: string, targetLang: string,
                          modelLoaded: bool, infer: string -> string)
    requires IsBlank(text)
    ensures IsBlank(Translation(RequestTranslator(sourceLang, targetLang, modelLoaded), text, infer))
  {
  }

  /** Without the model, a non-blank request to Hebrew always succeeds: the fallback appends
      the limited-translation note. */
  lemma HebrewFallbackSucceeds(text: string, infer: string -> string)
    requires !IsBlank(text)
    ensures !IsBlank(Translation(RequestTranslator("en", "he", false), text, infer))
  {
    var t := RequestTranslator("en", "he", false);
    HebrewRequestTranslator();
    assert Translation(t, text, infer) == SimpleTranslation(t, text);
    NoteNotBlank(Join(TranslatedWords(t.simpleDictionary, text), " "));
  }

  lemma HebrewRequestTranslator()
    ensures RequestTranslator("en", "he", false).tgtLang == "heb_Hebr"
    ensures !RequestTranslator("en", "he", false).modelLoaded
  {
    assert "he" in SupportedLangs;
  }

  /** Whatever precedes it, the note's opening parenthesis is not whitespace. */
  lemma NoteNotBlank(joined: string)
    ensures !IsBlank(joined + LimitedTranslationNote)
  {
    var r := joined + LimitedTranslationNote;
    assert r[|joined| + 2] == LimitedTranslationNote[2] == '(';
  }
}
