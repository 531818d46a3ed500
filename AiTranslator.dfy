/** The MarianMT/googletrans translator object (`AITranslator`): the backend it settles on in
    `__init__`, its dictionary fallback and the chunked `translate`. The MarianMT model and the
    googletrans service are abstracted as function parameters. */
module AiTranslator {
  import opened Wrappers
  import opened Text
  import Chunker
  import HebrewText

  /** `simple_dictionary` as `__init__` builds it. */
  const SimpleDictionary: map<string, string> := map[
    "hello" := "שלום",
    "world" := "עולם",
    "app" := "אפליקציה",
    "development" := "פיתוח",
    "great" := "מעולה",
    "android" := "אנדרואיד",
    "studio" := "סטודיו",
    "programming" := "תכנות",
    "application" := "יישום",
    "video" := "וידאו",
    "language" := "שפה",
    "project" := "פרויקט",
    "translator" := "מתרגם",
    "translation" := "תרגום",
    "artificial" := "מלאכותי",
    "intelligence" := "בינה",
    "AI" := "בינה מלאכותית",
    "file" := "קובץ",
    "computer" := "מחשב",
    "technology" := "טכנולוגיה",
    "download" := "הורדה",
    "install" := "התקנה",
    "setup" := "הגדרה",
    "model" := "מודל",
    "local" := "מקומי",
    "private" := "פרטי",
    "code" := "קוד",
    "python" := "פייתון",
    "javascript" := "ג'אווהסקריפט",
    "html" := "HTML",
    "css" := "CSS",
    "web" := "רשת",
    "internet" := "אינטרנט",
    "youtube" := "יוטיוב",
    "audio" := "שמע",
    "transcript" := "תמליל",
    "subtitles" := "כתוביות",
    "music" := "מוזיקה",
    "error" := "שגיאה",
    "success" := "הצלחה",
    "software" := "תוכנה",
    "button" := "כפתור",
    "click" := "לחיצה",
    "user" := "משתמש",
    "interface" := "ממשק",
    "options" := "אפשרויות",
    "settings" := "הגדרות"]

  /** The chunk size of the googletrans path. */
  const GoogleChunkSize: nat := 5000

  /** The `max_length` that the MarianMT path uses for `_split_text`. */
  const ChunkLength: nat := 400

  /** Which way `__init__` ends: MarianMT loaded (`use_transformers`), googletrans loaded, or
      neither (`model_loaded` false). */
  datatype Backend = MarianMt | GoogleTrans | DictionaryOnly

  /** An `AITranslator` after `__init__`; the modelled operations never change its fields. */
  datatype AiTranslator =
    AiTranslator(srcLang: string, tgtLang: string, simpleDictionary: map<string, string>,
                 backend: Backend)
  {
    predicate ModelLoaded() {
      backend != DictionaryOnly
    }

    predicate UseTransformers() {
      backend == MarianMt
    }
  }

  /** The model name that `__init__` picks for a language pair. The two named pairs have
      branches of their own, but every branch yields the same string. */
  function ModelName(srcLang: string, tgtLang: string): (r: string)
    ensures r == "Helsinki-NLP/opus-mt-" + srcLang + "-" + tgtLang
  {
    if srcLang == "en" && tgtLang == "he" then "Helsinki-NLP/opus-mt-en-he"
    else if srcLang == "he" && tgtLang == "en" then "Helsinki-NLP/opus-mt-he-en"
    else "Helsinki-NLP/opus-mt-" + srcLang + "-" + tgtLang
  }

  /** `AITranslator(src_lang, tgt_lang)`: `marianLoads` says whether loading the model named
      `ModelName(srcLang, tgtLang)` succeeds and `googleAvailable` whether googletrans
      imports; MarianMT is preferred, then googletrans, then the dictionary alone. */
  function NewTranslator(srcLang: string, tgtLang: string, marianLoads: bool,
                         googleAvailable: bool): (t: AiTranslator)
    ensures t.srcLang == srcLang && t.tgtLang == tgtLang
    ensures t.simpleDictionary == SimpleDictionary
    ensures t.UseTransformers() <==> marianLoads
    ensures t.ModelLoaded() <==> marianLoads || googleAvailable
  {
    var backend := if marianLoads then MarianMt else if googleAvailable then GoogleTrans else DictionaryOnly;
    AiTranslator(srcLang, tgtLang, SimpleDictionary, backend)
  }

  // ---------------------------------------------------------------- dictionary fallback

  /** The characters `word.strip(...)` removes from both ends. */
  predicate IsStripped(c: char) {
    c in ".,!?;:\"'()[]{}"
  }

  /** The number of leading characters that `strip` removes. */
  function LeadingStripped(s: string): (k: nat)
    ensures k <= |s|
  {
    if s != [] && IsStripped(s[0]) then 1 + LeadingStripped(s[1..]) else 0
  }

  /** The length of `s` without the trailing characters that `strip` removes. */
  function TrailingStripped(s: string): (k: nat)
    ensures k <= |s|
  {
    if s != [] && IsStripped(s[|s| - 1]) then TrailingStripped(s[..|s| - 1]) else |s|
  }

  /** `word.strip('.,!?;:"\'()[]{}')`: a slice of the word. */
  function StripPunctuation(word: string): (r: string)
    ensures |r| <= |word|
  {
    var t := word[LeadingStripped(word)..];
    t[..TrailingStripped(t)]
  }

  /** `clean_word`: the stripped, lower-cased word that `_simple_translate` looks up. */
  function CleanWord(word: string): (r: string)
    ensures |r| <= |word|
  {
    Lower(StripPunctuation(word))
  }

  /** `punctuation` as `_simple_translate` computes it for a dictionary hit. */
  function Punctuation(word: string, clean: string): string {
    if |clean| < |word| then word[|clean|..] else ""
  }

  /** `prefix` as `_simple_translate` computes it for a dictionary hit. */
  function Prefix(word: string, clean: string): string
    requires |clean| <= |word|
  {
    var punctuation := Punctuation(word, clean);
    if |clean| + |punctuation| < |word| then SlicePrefix(word, |word| - |clean| - |punctuation|) else ""
  }

  /** The computed `prefix` is always empty, because `punctuation` is everything after the
      first `len(clean_word)` characters; so a hit is the translation followed by the rest of
      the word. */
  lemma PrefixAlwaysEmpty(word: string, clean: string)
    requires |clean| <= |word|
    ensures Prefix(word, clean) == ""
    ensures Punctuation(word, clean) == word[|clean|..]
  {
  }

  /** The entry the loop appends for a hit is `TranslateWord`'s. */
  lemma HitEntry(dict: map<string, string>, word: string)
    requires CleanWord(word) in dict
    ensures Prefix(word, CleanWord(word)) + dict[CleanWord(word)] + Punctuation(word, CleanWord(word))
         == TranslateWord(dict, word)
  {
    PrefixAlwaysEmpty(word, CleanWord(word));
    assert "" + dict[CleanWord(word)] == dict[CleanWord(word)];
  }

  /** One word of `_simple_translate`: a hit is the translation followed by the characters of
      the word past the length of its clean form; a miss keeps the word as it is. */
  function TranslateWord(dict: map<string, string>, word: string): string {
    var clean := CleanWord(word);
    if clean in dict then dict[clean] + word[|clean|..] else word
  }

  /** The list `translated_words`, in input order. */
  function TranslatedWords(dict: map<string, string>, text: string): (ws: seq<string>)
    ensures |ws| == |Split(text)|
  {
    seq(|Split(text)|, i requires 0 <= i < |Split(text)| => TranslateWord(dict, Split(text)[i]))
  }

  /** `reversed(ws)` as a list. */
  function Reverse<T>(ws: seq<T>): (r: seq<T>)
    ensures |r| == |ws| && forall i :: 0 <= i < |ws| ==> r[i] == ws[|ws| - 1 - i]
  {
    if ws == [] then [] else Reverse(ws[1..]) + [ws[0]]
  }

  /** What `_simple_translate` returns: for a Hebrew target the words come out in reverse. */
  function SimpleTranslation(t: AiTranslator, text: string): string {
    var ws := TranslatedWords(t.simpleDictionary, text);
    if t.tgtLang == "he" then Join(Reverse(ws), " ") else Join(ws, " ")
  }

  /** With no word of the text in the dictionary, the result is the text's words as they
      are, one space apart: in order, or reversed for a Hebrew target. */
  lemma UnknownWordsPassThrough(t: AiTranslator, text: string)
    requires forall i :: 0 <= i < |Split(text)| ==> CleanWord(Split(text)[i]) !in t.simpleDictionary
    ensures t.tgtLang == "he" ==> SimpleTranslation(t, text) == Join(Reverse(Split(text)), " ")
    ensures t.tgtLang != "he" ==> SimpleTranslation(t, text) == Join(Split(text), " ")
  {
    var ws := TranslatedWords(t.simpleDictionary, text);
    assert ws == Split(text) by {
      forall i | 0 <= i < |ws| ensures ws[i] == Split(text)[i] {
        assert ws[i] == TranslateWord(t.simpleDictionary, Split(text)[i]);
      }
    }
  }

  /** A bracketed hit loses its opening bracket and keeps characters of the word itself:
      the tail is cut at the length of the clean form, counted from the start of the word. */
  lemma BracketedHitKeepsTail(dict: map<string, string>)
    requires "hello" in dict
    ensures TranslateWord(dict, "(hello)") == dict["hello"] + "o)"
  {
    var w := "(hello)";
    assert LeadingStripped(w[1..]) == 0;
    assert LeadingStripped(w) == 1;
    var t := w[1..];
    assert t == "hello)";
    assert TrailingStripped(t[..5]) == 5;
    assert TrailingStripped(t) == 5;
    assert StripPunctuation(w) == "hello";
    assert CleanWord(w) == "hello";
  }

  /** Every key a lookup can hit, that is every lower-case key, maps to a single word. */
  predicate LowerKeysMapToWords(dict: map<string, string>) {
    forall k :: k in dict && Lower(k) == k ==> dict[k] != [] && NoSpace(dict[k])
  }

  /** The program's dictionary qualifies: its one value of two words sits under the key
      `"AI"`, which a lower-cased `clean_word` never equals. */
  lemma SimpleDictionaryMapsToWords()
    ensures LowerKeysMapToWords(SimpleDictionary)
    ensures !(forall k :: k in SimpleDictionary ==> NoSpace(SimpleDictionary[k]))
  {
    assert Lower("AI")[0] == 'a';
    assert !NoSpace(SimpleDictionary["AI"]) by {
      assert SimpleDictionary["AI"][4] == ' ';
    }
    var m: map<string, string> := map[];
    m := DictionaryPart0(m);
    m := DictionaryPart1(m);
    m := DictionaryPart2(m);
    m := DictionaryPart3(m);
    m := DictionaryPart4(m);
    m := DictionaryPart5(m);
    assert m == SimpleDictionary;
  }

  /** Every value but the one under `"AI"` is a single word. */
  predicate WordsBesidesAI(m: map<string, string>) {
    forall k :: k in m && k != "AI" ==> m[k] != [] && NoSpace(m[k])
  }

  lemma AddEntry(m: map<string, string>, k: string, v: string)
    requires WordsBesidesAI(m) && (k != "AI" ==> v != [] && NoSpace(v))
    ensures WordsBesidesAI(m[k := v])
  {
  }

  // The dictionary is checked eight entries at a time, in the order `__init__` lists them.

  lemma DictionaryPart0(m: map<string, string>) returns (r: map<string, string>)
    requires WordsBesidesAI(m)
    ensures WordsBesidesAI(r) && r == m["hello" := "שלום"]["world" := "עולם"]["app" := "אפליקציה"]["development" := "פיתוח"]["great" := "מעולה"]["android" := "אנדרואיד"]["studio" := "סטודיו"]["programming" := "תכנות"]
  {
    r := m;
    AddEntry(r, "hello", "שלום");
    r := r["hello" := "שלום"];
    AddEntry(r, "world", "עולם");
    r := r["world" := "עולם"];
    AddEntry(r, "app", "אפליקציה");
    r := r["app" := "אפליקציה"];
    AddEntry(r, "development", "פיתוח");
    r := r["development" := "פיתוח"];
    AddEntry(r, "great", "מעולה");
    r := r["great" := "מעולה"];
    AddEntry(r, "android", "אנדרואיד");
    r := r["android" := "אנדרואיד"];
    AddEntry(r, "studio", "סטודיו");
    r := r["studio" := "סטודיו"];
    AddEntry(r, "programming", "תכנות");
    r := r["programming" := "תכנות"];
  }

  lemma DictionaryPart1(m: map<string, string>) returns (r: map<string, string>)
    requires WordsBesidesAI(m)
    ensures WordsBesidesAI(r) && r == m["application" := "יישום"]["video" := "וידאו"]["language" := "שפה"]["project" := "פרויקט"]["translator" := "מתרגם"]["translation" := "תרגום"]["artificial" := "מלאכותי"]["intelligence" := "בינה"]
  {
    r := m;
    AddEntry(r, "application", "יישום");
    r := r["application" := "יישום"];
    AddEntry(r, "video", "וידאו");
    r := r["video" := "וידאו"];
    AddEntry(r, "language", "שפה");
    r := r["language" := "שפה"];
    AddEntry(r, "project", "פרויקט");
    r := r["project" := "פרויקט"];
    AddEntry(r, "translator", "מתרגם");
    r := r["translator" := "מתרגם"];
    AddEntry(r, "translation", "תרגום");
    r := r["translation" := "תרגום"];
    AddEntry(r, "artificial", "מלאכותי");
    r := r["artificial" := "מלאכותי"];
    AddEntry(r, "intelligence", "בינה");
    r := r["intelligence" := "בינה"];
  }

  lemma DictionaryPart2(m: map<string, string>) returns (r: map<string, string>)
    requires WordsBesidesAI(m)
    ensures WordsBesidesAI(r) && r == m["AI" := "בינה מלאכותית"]["file" := "קובץ"]["computer" := "מחשב"]["technology" := "טכנולוגיה"]["download" := "הורדה"]["install" := "התקנה"]["setup" := "הגדרה"]["model" := "מודל"]
  {
    r := m;
    AddEntry(r, "AI", "בינה מלאכותית");
    r := r["AI" := "בינה מלאכותית"];
    AddEntry(r, "file", "קובץ");
    r := r["file" := "קובץ"];
    AddEntry(r, "computer", "מחשב");
    r := r["computer" := "מחשב"];
    AddEntry(r, "technology", "טכנולוגיה");
    r := r["technology" := "טכנולוגיה"];
    AddEntry(r, "download", "הורדה");
    r := r["download" := "הורדה"];
    AddEntry(r, "install", "התקנה");
    r := r["install" := "התקנה"];
    AddEntry(r, "setup", "הגדרה");
    r := r["setup" := "הגדרה"];
    AddEntry(r, "model", "מודל");
    r := r["model" := "מודל"];
  }

  lemma DictionaryPart3(m: map<string, string>) returns (r: map<string, string>)
    requires WordsBesidesAI(m)
    ensures WordsBesidesAI(r) && r == m["local" := "מקומי"]["private" := "פרטי"]["code" := "קוד"]["python" := "פייתון"]["javascript" := "ג'אווהסקריפט"]["html" := "HTML"]["css" := "CSS"]["web" := "רשת"]
  {
    r := m;
    AddEntry(r, "local", "מקומי");
    r := r["local" := "מקומי"];
    AddEntry(r, "private", "פרטי");
    r := r["private" := "פרטי"];
    AddEntry(r, "code", "קוד");
    r := r["code" := "קוד"];
    AddEntry(r, "python", "פייתון");
    r := r["python" := "פייתון"];
    AddEntry(r, "javascript", "ג'אווהסקריפט");
    r := r["javascript" := "ג'אווהסקריפט"];
    AddEntry(r, "html", "HTML");
    r := r["html" := "HTML"];
    AddEntry(r, "css", "CSS");
    r := r["css" := "CSS"];
    AddEntry(r, "web", "רשת");
    r := r["web" := "רשת"];
  }

  lemma DictionaryPart4(m: map<string, string>) returns (r: map<string, string>)
    requires WordsBesidesAI(m)
    ensures WordsBesidesAI(r) && r == m["internet" := "אינטרנט"]["youtube" := "יוטיוב"]["audio" := "שמע"]["transcript" := "תמליל"]["subtitles" := "כתוביות"]["music" := "מוזיקה"]["error" := "שגיאה"]["success" := "הצלחה"]
  {
    r := m;
    AddEntry(r, "internet", "אינטרנט");
    r := r["internet" := "אינטרנט"];
    AddEntry(r, "youtube", "יוטיוב");
    r := r["youtube" := "יוטיוב"];
    AddEntry(r, "audio", "שמע");
    r := r["audio" := "שמע"];
    AddEntry(r, "transcript", "תמליל");
    r := r["transcript" := "תמליל"];
    AddEntry(r, "subtitles", "כתוביות");
    r := r["subtitles" := "כתוביות"];
    AddEntry(r, "music", "מוזיקה");
    r := r["music" := "מוזיקה"];
    AddEntry(r, "error", "שגיאה");
    r := r["error" := "שגיאה"];
    AddEntry(r, "success", "הצלחה");
    r := r["success" := "הצלחה"];
  }

  lemma DictionaryPart5(m: map<string, string>) returns (r: map<string, string>)
    requires WordsBesidesAI(m)
    ensures WordsBesidesAI(r) && r == m["software" := "תוכנה"]["button" := "כפתור"]["click" := "לחיצה"]["user" := "משתמש"]["interface" := "ממשק"]["options" := "אפשרויות"]["settings" := "הגדרות"]
  {
    r := m;
    AddEntry(r, "software", "תוכנה");
    r := r["software" := "תוכנה"];
    AddEntry(r, "button", "כפתור");
    r := r["button" := "כפתור"];
    AddEntry(r, "click", "לחיצה");
    r := r["click" := "לחיצה"];
    AddEntry(r, "user", "משתמש");
    r := r["user" := "משתמש"];
    AddEntry(r, "interface", "ממשק");
    r := r["interface" := "ממשק"];
    AddEntry(r, "options", "אפשרויות");
    r := r["options" := "אפשרויות"];
    AddEntry(r, "settings", "הגדרות");
    r := r["settings" := "הגדרות"];
  }

  /** When every lower-case key maps to a single word, each input word becomes exactly one
      word of the result: the result splits back into the translated words, in input order,
      or in reverse order for a Hebrew target. */
  lemma SimpleTranslationWords(t: AiTranslator, text: string)
    requires LowerKeysMapToWords(t.simpleDictionary)
    ensures t.tgtLang == "he" ==> Split(SimpleTranslation(t, text)) == Reverse(TranslatedWords(t.simpleDictionary, text))
    ensures t.tgtLang != "he" ==> Split(SimpleTranslation(t, text)) == TranslatedWords(t.simpleDictionary, text)
    ensures |Split(SimpleTranslation(t, text))| == |Split(text)|
  {
    var ws := TranslatedWords(t.simpleDictionary, text);
    TranslatedWordsAreWords(t.simpleDictionary, text);
    if t.tgtLang == "he" {
      var rs := Reverse(ws);
      assert forall i :: 0 <= i < |rs| ==> rs[i] == ws[|ws| - 1 - i];
      SplitJoin(rs);
    } else {
      SplitJoin(ws);
    }
  }

  /** For every translator that `__init__` builds, the dictionary translation has exactly one
      word per input word, in input order, or reversed for a Hebrew target. */
  lemma BuiltTranslatorWordForWord(srcLang: string, tgtLang: string, marianLoads: bool,
                                   googleAvailable: bool, text: string)
    ensures var t := NewTranslator(srcLang, tgtLang, marianLoads, googleAvailable);
      && |Split(SimpleTranslation(t, text))| == |Split(text)|
      && (tgtLang == "he" ==> Split(SimpleTranslation(t, text)) == Reverse(TranslatedWords(SimpleDictionary, text)))
      && (tgtLang != "he" ==> Split(SimpleTranslation(t, text)) == TranslatedWords(SimpleDictionary, text))
  {
    SimpleDictionaryMapsToWords();
    SimpleTranslationWords(NewTranslator(srcLang, tgtLang, marianLoads, googleAvailable), text);
  }

  /** Single-word dictionary values keep every entry of `translated_words` a single word. */
  lemma TranslatedWordsAreWords(dict: map<string, string>, text: string)
    requires LowerKeysMapToWords(dict)
    ensures forall i :: 0 <= i < |TranslatedWords(dict, text)| ==>
      TranslatedWords(dict, text)[i] != [] && NoSpace(TranslatedWords(dict, text)[i])
  {
    SplitWords(text);
    var ws := TranslatedWords(dict, text);
    forall i | 0 <= i < |ws| ensures ws[i] != [] && NoSpace(ws[i]) {
      WordStaysWord(dict, Split(text)[i]);
    }
  }

  lemma WordStaysWord(dict: map<string, string>, w: string)
    requires LowerKeysMapToWords(dict)
    requires w != [] && NoSpace(w)
    ensures TranslateWord(dict, w) != [] && NoSpace(TranslateWord(dict, w))
  {
    var clean := CleanWord(w);
    if clean in dict {
      assert Lower(clean) == clean;
      var tail := w[|clean|..];
      assert forall j :: 0 <= j < |tail| ==> tail[j] == w[|clean| + j];
      var r := dict[clean] + tail;
      assert forall j :: 0 <= j < |r| ==> r[j] == (if j < |dict[clean]| then dict[clean][j] else tail[j - |dict[clean]|]);
    }
  }

  /** `AITranslator._simple_translate(text)`. */
  method SimpleTranslate(t: AiTranslator, text: string) returns (r: string)
    ensures r == SimpleTranslation(t, text)
  {
    var words := Split(text);
    ghost var all := TranslatedWords(t.simpleDictionary, text);
    var translatedWords: seq<string> := [];
    for i := 0 to |words|
      invariant translatedWords == all[..i]
    {
      TakeSnoc(all, i);
      var word := words[i];
      var cleanWord := Lower(StripPunctuation(word));
      assert cleanWord == CleanWord(word);
      if cleanWord in t.simpleDictionary {
        var punctuation := if |cleanWord| < |word| then word[|cleanWord|..] else "";
        var prefix := if |cleanWord| + |punctuation| < |word| then SlicePrefix(word, |word| - |cleanWord| - |punctuation|) else "";
        assert punctuation == Punctuation(word, cleanWord) && prefix == Prefix(word, cleanWord);
        HitEntry(t.simpleDictionary, word);
        translatedWords := translatedWords + [prefix + t.simpleDictionary[cleanWord] + punctuation];
      } else {
        translatedWords := translatedWords + [word];
      }
    }
    TakeAll(all);
    if t.tgtLang == "he" {
      return Join(Reverse(translatedWords), " ");
    } else {
      return Join(translatedWords, " ");
    }
  }

  // ---------------------------------------------------------------- translate

  /** The chunks of the googletrans path: slices of 5000 characters. */
  function GoogleChunks(text: string): seq<string> {
    FixedSlices(text, GoogleChunkSize)
  }

  /** The slices are at most 5000 characters long, ceil(len / 5000) in number, and together
      they are exactly the text. */
  lemma GoogleChunksCoverText(text: string)
    ensures var chunks := GoogleChunks(text);
      && Flatten(chunks) == text
      && (|chunks| - 1) * GoogleChunkSize < |text| <= |chunks| * GoogleChunkSize
      && (forall i :: 0 <= i < |chunks| ==> 0 < |chunks[i]| <= GoogleChunkSize)
  {
    FixedSlicesProperties(text, GoogleChunkSize);
  }

  /** The piece that the googletrans loop appends for one chunk: the service's text, or the
      dictionary translation of the chunk when the call fails (`None`). */
  function GooglePiece(t: AiTranslator, chunk: string, google: string -> Option<string>): string {
    match google(chunk)
    case Some(translated) => translated
    case None => SimpleTranslation(t, chunk)
  }

  /** The list `translations`: one piece per chunk, in chunk order. */
  function GooglePieces(t: AiTranslator, text: string, google: string -> Option<string>): (ps: seq<string>)
    ensures |ps| == |GoogleChunks(text)|
  {
    var chunks := GoogleChunks(text);
    seq(|chunks|, i requires 0 <= i < |chunks| => GooglePiece(t, chunks[i], google))
  }

  /** A text of at most 5000 characters is one chunk, so the result is that one piece: the
      service's translation of the whole text, or, when the call fails, exactly the
      dictionary translation of the text. */
  lemma ShortTextOneChunk(t: AiTranslator, text: string, google: string -> Option<string>)
    requires 0 < |text| <= GoogleChunkSize
    ensures google(text).Some? ==> Join(GooglePieces(t, text, google), " ") == google(text).value
    ensures google(text).None? ==> Join(GooglePieces(t, text, google), " ") == SimpleTranslation(t, text)
  {
    assert GoogleChunks(text) == [text];
    assert GooglePieces(t, text, google) == [GooglePiece(t, text, google)];
  }

  /** The MarianMT path: `_split_text` chunks through the model, joined by spaces, fixed up
      for a Hebrew target. */
  function MarianTranslation(t: AiTranslator, text: string, infer: string -> string): string {
    var chunks := Chunker.Chunks(text, ChunkLength);
    var joined := Join(seq(|chunks|, i requires 0 <= i < |chunks| => infer(chunks[i])), " ");
    if t.tgtLang == "he" then HebrewText.FixHebrewText(joined) else joined
  }

  /** What `translate` returns for each backend. */
  function Translation(t: AiTranslator, text: string, infer: string -> string,
                       google: string -> Option<string>): string {
    if IsBlank(text) then ""
    else match t.backend
      case MarianMt => MarianTranslation(t, text, infer)
      case GoogleTrans => Join(GooglePieces(t, text, google), " ")
      case DictionaryOnly => SimpleTranslation(t, text)
  }

  /** `AITranslator.translate(text)`: `infer` is the MarianMT model on one chunk and `google`
      the googletrans call on one chunk (`None` when it raises). */
  method Translate(t: AiTranslator, text: string, infer: string -> string,
                   google: string -> Option<string>) returns (r: string)
    ensures r == Translation(t, text, infer, google)
    ensures IsBlank(text) ==> r == ""
  {
    StripEmptyIffBlank(text);
    if text == "" || Strip(text) == "" {
      return "";
    }
    if t.ModelLoaded() {
      if t.UseTransformers() {
        r := MarianTranslate(t, text, infer);
      } else {
        r := GoogleTranslate(t, text, google);
      }
      return;
    }
    r := SimpleTranslate(t, text);
  }

  /** The MarianMT branch of `translate`: each `_split_text` chunk through the model. */
  method MarianTranslate(t: AiTranslator, text: string, infer: string -> string) returns (r: string)
    ensures r == MarianTranslation(t, text, infer)
  {
    var sentences := Chunker.SplitText(text, ChunkLength);
    var translatedSentences: seq<string> := [];
    for i := 0 to |sentences|
      invariant translatedSentences == seq(i, k requires 0 <= k < i => infer(sentences[k]))
    {
      translatedSentences := translatedSentences + [infer(sentences[i])];
    }
    var fullTranslation := Join(translatedSentences, " ");
    if t.tgtLang == "he" {
      fullTranslation := HebrewText.FixHebrewText(fullTranslation);
    }
    return fullTranslation;
  }

  /** The googletrans branch of `translate`: each 5000-character chunk through the service,
      falling back to the dictionary for a chunk the service fails on. */
  method GoogleTranslate(t: AiTranslator, text: string, google: string -> Option<string>) returns (r: string)
    ensures r == Join(GooglePieces(t, text, google), " ")
  {
    var chunks := FixedSlices(text, GoogleChunkSize);
    ghost var all := GooglePieces(t, text, google);
    var translations: seq<string> := [];
    for i := 0 to |chunks|
      invariant translations == all[..i]
    {
      TakeSnoc(all, i);
      var result := google(chunks[i]);
      if result.Some? {
        translations := translations + [result.value];
      } else {
        var fallback := SimpleTranslate(t, chunks[i]);
        translations := translations + [fallback];
      }
    }
    TakeAll(all);
    return Join(translations, " ");
  }
}
