/**
 * The in-browser word analyzer page: the word table it loaded, the search box
 * and its suggestion list, and the output regions it renders a lookup into.
 */
module WordAnalyzerPage {
  import opened Wrappers
  import opened Text
  import opened Tables
  import opened Models

  /** An output region: a message paragraph, an error box, or one block per item (none = empty). */
  datatype Panel<T> = Notice(text: string) | ErrorBox(message: string) | Blocks(items: seq<T>)

  /** One "words containing <affix>" section of the examples region. */
  datatype ExampleSection = ExampleSection(affix: string, words: seq<string>)

  /** The contents of all output regions at one moment. */
  datatype View = View(
    translation: string,
    phonetic: string,
    wordClass: string,
    meanings: seq<string>,
    analysis: Panel<AffixAnalysis>,
    examples: Panel<ExampleSection>,
    comparison: Panel<SimilarWord>)

  const QUERYING := "查询中..."
  const ANALYZING := "分析中..."
  const FAILED := "查询失败"
  const UNAVAILABLE := "无法获取数据"
  const NO_ANALYSIS := "暂无词根词缀分析数据"
  const NO_EXAMPLES := "暂无同词缀单词数据"
  const NO_COMPARISON := "暂无相似词对比数据"
  const NOT_LOADED := "数据尚未加载完成，请稍后再试"
  /** Both the suggestion list and each affix example list stop at five words. */
  const LIST_LIMIT: nat := 5

  /** The message shown for a word the table does not hold; it names the word. */
  function NotFoundMessage(word: string): (m: string)
    ensures Contains(m, word)
  {
    ContainsWithin("未找到单词 \"", word, "\" 的信息");
    "未找到单词 \"" + word + "\" 的信息"
  }

  /** What the search box's text is reduced to: trimmed, then lower-cased. */
  function Normalize(raw: string): (r: string)
    ensures r == [] || (!IsSpace(r[0]) && !IsSpace(r[|r| - 1]))
    ensures forall i :: 0 <= i < |r| ==> !('A' <= r[i] <= 'Z')
    ensures Trim(raw) == [] <==> r == []
  {
    LowerKeepsTrimmed(Trim(raw));
    Lower(Trim(raw))
  }

  /** Normalising twice is normalising once: a chosen suggestion or a re-submitted box looks up the same key. */
  lemma NormalizeIdempotent(raw: string)
    ensures Normalize(Normalize(raw)) == Normalize(raw)
  {
    TrimmedFixed(Normalize(raw));
    LowerIdempotent(Trim(raw));
  }

  /**
   * The suggestion list for a normalised input: nothing for an empty input or
   * before the table is loaded, otherwise the first five keys, in enumeration
   * order, that start with the input.
   */
  function Suggestions(data: Option<Table<WordData>>, input: string): (r: seq<string>)
    ensures |r| <= LIST_LIMIT
    ensures input == [] || data.None? ==> r == []
    ensures data.Some? ==> r <= Filter(data.value.keys, HasPrefix(input))
  {
    if input == [] || data.None? then []
    else FirstMatches(data.value.keys, HasPrefix(input), LIST_LIMIT)
  }

  /**
   * Every suggestion is a key starting with the input; fewer than five
   * suggestions means no such key was left out.
   */
  lemma SuggestionsFacts(data: Option<Table<WordData>>, input: string)
    requires data.Some?
    ensures forall w :: w in Suggestions(data, input) ==> w in data.value.keys && StartsWith(w, input)
    ensures input != [] && |Suggestions(data, input)| < LIST_LIMIT ==>
              forall w :: w in data.value.keys && StartsWith(w, input) ==> w in Suggestions(data, input)
  {
    if input != [] {
      FirstMatchesFacts(data.value.keys, HasPrefix(input), LIST_LIMIT);
    }
  }

  /**
   * `findAffixExamples`: the first five keys, in enumeration order, that
   * contain the affix with its FIRST '-' removed; none while no table is loaded.
   */
  function AffixExamples(data: Option<Table<WordData>>, affix: string): (r: seq<string>)
    ensures |r| <= LIST_LIMIT
    ensures data.None? ==> r == []
    ensures data.Some? ==> r <= Filter(data.value.keys, HasInfix(RemoveFirst(affix, '-')))
  {
    match data
    case None => []
    case Some(t) => FirstMatches(t.keys, HasInfix(RemoveFirst(affix, '-')), LIST_LIMIT)
  }

  /**
   * Every example is a key containing the cleaned affix; fewer than five
   * examples means no such key was left out.
   */
  lemma AffixExamplesFacts(data: Option<Table<WordData>>, affix: string)
    requires data.Some?
    ensures forall w :: w in AffixExamples(data, affix) ==>
              w in data.value.keys && Contains(w, RemoveFirst(affix, '-'))
    ensures |AffixExamples(data, affix)| < LIST_LIMIT ==>
              forall w :: w in data.value.keys && Contains(w, RemoveFirst(affix, '-')) ==> w in AffixExamples(data, affix)
  {
    FirstMatchesFacts(data.value.keys, HasInfix(RemoveFirst(affix, '-')), LIST_LIMIT);
  }

  /** One section per affix note whose examples are not empty, in note order. */
  function ExampleSections(data: Option<Table<WordData>>, notes: seq<AffixAnalysis>): seq<ExampleSection>
  {
    if notes == [] then []
    else
      var last := notes[|notes| - 1];
      var words := AffixExamples(data, last.part);
      ExampleSections(data, notes[..|notes| - 1]) + (if words != [] then [ExampleSection(last.part, words)] else [])
  }

  /**
   * Every section belongs to a note, holds that affix's examples and is not
   * empty; there are no sections exactly when no note has an example.
   */
  lemma {:induction false} ExampleSectionsFacts(data: Option<Table<WordData>>, notes: seq<AffixAnalysis>)
    ensures forall s :: s in ExampleSections(data, notes) ==>
              && 1 <= |s.words| <= LIST_LIMIT
              && s.words == AffixExamples(data, s.affix)
              && exists n :: n in notes && n.part == s.affix
    ensures ExampleSections(data, notes) == [] <==> forall n :: n in notes ==> AffixExamples(data, n.part) == []
  {
    if notes != [] {
      var init := notes[..|notes| - 1];
      var last := notes[|notes| - 1];
      ExampleSectionsFacts(data, init);
      assert notes == init + [last];
      var words := AffixExamples(data, last.part);
      var earlier := ExampleSections(data, init);
      assert ExampleSections(data, notes) == earlier + (if words != [] then [ExampleSection(last.part, words)] else []);
      forall s | s in ExampleSections(data, notes)
        ensures exists n :: n in notes && n.part == s.affix
      {
        if s in earlier {
          var n :| n in init && n.part == s.affix;
          assert n in notes;
        } else {
          assert last in notes && last.part == s.affix;
        }
      }
    }
  }

  /** There are never more sections than notes. */
  lemma {:induction false} ExampleSectionsCount(data: Option<Table<WordData>>, notes: seq<AffixAnalysis>)
    ensures |ExampleSections(data, notes)| <= |notes|
  {
    if notes != [] {
      ExampleSectionsCount(data, notes[..|notes| - 1]);
    }
  }

  /** Conversely, every note with an example word gets its section. */
  lemma {:induction false} ExampleSectionsComplete(data: Option<Table<WordData>>, notes: seq<AffixAnalysis>)
    ensures forall n :: n in notes && AffixExamples(data, n.part) != [] ==>
              ExampleSection(n.part, AffixExamples(data, n.part)) in ExampleSections(data, notes)
  {
    if notes != [] {
      var init := notes[..|notes| - 1];
      var last := notes[|notes| - 1];
      ExampleSectionsComplete(data, init);
      assert notes == init + [last];
      var words := AffixExamples(data, last.part);
      var earlier := ExampleSections(data, init);
      var added := if words != [] then [ExampleSection(last.part, words)] else [];
      assert ExampleSections(data, notes) == earlier + added;
      forall n | n in notes && AffixExamples(data, n.part) != []
        ensures ExampleSection(n.part, AffixExamples(data, n.part)) in earlier + added
      {
        var sec := ExampleSection(n.part, AffixExamples(data, n.part));
        if n in init {
          assert sec in earlier;
        } else {
          assert n == last;
          assert added == [sec];
        }
      }
    }
  }

  /** The affix analysis region for a record: one block per note, or the placeholder. */
  function AnalysisPanel(rec: WordData): (p: Panel<AffixAnalysis>)
    ensures p.Notice? <==> rec.affixAnalysis == []
    ensures p.Notice? ==> p.text == NO_ANALYSIS
    ensures rec.affixAnalysis != [] ==> p == Blocks(rec.affixAnalysis)
  {
    if rec.affixAnalysis == [] then Notice(NO_ANALYSIS) else Blocks(rec.affixAnalysis)
  }

  /**
   * The affix examples region: the sections, or the placeholder exactly when
   * no affix of the record has an example word.
   */
  function ExamplesPanel(data: Option<Table<WordData>>, notes: seq<AffixAnalysis>): (p: Panel<ExampleSection>)
    ensures p.Notice? <==> forall n :: n in notes ==> AffixExamples(data, n.part) == []
    ensures p.Notice? ==> p.text == NO_EXAMPLES
    ensures ExampleSections(data, notes) != [] ==> p == Blocks(ExampleSections(data, notes))
    ensures p.Blocks? ==> forall s :: s in p.items ==> 1 <= |s.words| <= LIST_LIMIT && exists n :: n in notes && n.part == s.affix
    ensures forall n :: n in notes && AffixExamples(data, n.part) != [] ==>
              p.Blocks? && ExampleSection(n.part, AffixExamples(data, n.part)) in p.items
  {
    ExampleSectionsFacts(data, notes);
    ExampleSectionsComplete(data, notes);
    var sections := ExampleSections(data, notes);
    if sections == [] then Notice(NO_EXAMPLES) else Blocks(sections)
  }

  /** The comparison region for a record: one block per similar word, or the placeholder. */
  function ComparisonPanel(rec: WordData): (p: Panel<SimilarWord>)
    ensures p.Notice? <==> rec.similarWords == []
    ensures p.Notice? ==> p.text == NO_COMPARISON
    ensures rec.similarWords != [] ==> p == Blocks(rec.similarWords)
  {
    if rec.similarWords == [] then Notice(NO_COMPARISON) else Blocks(rec.similarWords)
  }

  /** Before any lookup: every region empty. */
  const IdleView := View("", "", "", [], Blocks([]), Blocks([]), Blocks([]))

  /** `showLoading`: placeholders, with phonetic, word class and meanings cleared. */
  const LoadingView := View(QUERYING, "", "", [], Notice(ANALYZING), Notice(QUERYING), Notice(QUERYING))

  /** `displayError`: the failure label, the message in the analysis region, phonetic, word class and meanings cleared. */
  function ErrorView(message: string): (v: View)
    ensures v.translation == FAILED && v.phonetic == "" && v.wordClass == "" && v.meanings == []
    ensures v.analysis == ErrorBox(message)
    ensures v.examples == Notice(UNAVAILABLE) && v.comparison == Notice(UNAVAILABLE)
  {
    View(FAILED, "", "", [], ErrorBox(message), Notice(UNAVAILABLE), Notice(UNAVAILABLE))
  }

  /** `displayWordData`: the record's fields verbatim (an absent phonetic shows as empty) and its panels. */
  function PopulatedView(data: Option<Table<WordData>>, rec: WordData): (v: View)
    ensures v.translation == rec.translation && v.wordClass == rec.wordClass && v.meanings == rec.meanings
    ensures v.phonetic == if rec.phonetic.Some? then rec.phonetic.value else ""
  {
    View(rec.translation, rec.phonetic.GetOr(""), rec.wordClass, rec.meanings,
         AnalysisPanel(rec), ExamplesPanel(data, rec.affixAnalysis), ComparisonPanel(rec))
  }

  /** What the regions show once `searchWord(word)` has run to completion. */
  function SearchView(data: Option<Table<WordData>>, word: string): (v: View)
    ensures data.None? ==> v == ErrorView(NOT_LOADED)
    ensures data.Some? && word in data.value.entries ==> v == PopulatedView(data, data.value.entries[word])
    ensures data.Some? && word !in data.value.entries ==>
              v == ErrorView(NotFoundMessage(word)) && Contains(v.analysis.message, word)
  {
    match data
    case None => ErrorView(NOT_LOADED)
    case Some(t) =>
      if word in t.entries then PopulatedView(data, t.entries[word]) else ErrorView(NotFoundMessage(word))
  }

  /** Choosing a suggestion never ends in the not-found error: every suggestion is a key with a record. */
  lemma SuggestionHasRecord(t: Table<WordData>, input: string, w: string)
    requires t.Valid() && w in Suggestions(Some(t), input)
    ensures w in t.entries
    ensures SearchView(Some(t), w) == PopulatedView(Some(t), t.entries[w])
  {
    SuggestionsFacts(Some(t), input);
  }

  /**
   * A key with an upper-case letter is reachable only by clicking it in the
   * suggestion list: the click looks it up verbatim and finds its record,
   * while any text submitted from the box is lower-cased first and so never
   * names that key.
   */
  lemma MixedCaseKeyOnlyByClick(t: Table<WordData>, input: string, k: string)
    requires t.Valid() && k in Suggestions(Some(t), input) && Lower(k) != k
    ensures SearchView(Some(t), k) == PopulatedView(Some(t), t.entries[k])
    ensures forall raw :: Normalize(raw) != k
  {
    SuggestionHasRecord(t, input, k);
    forall raw
      ensures Normalize(raw) != k
    {
      LowerIdempotent(Trim(raw));
    }
  }

  class WordAnalyzer {
    /** The parsed words table; None until it has loaded. */
    var wordData: Option<Table<WordData>>
    /** The search box's current text. */
    var inputValue: string
    /** The entries of the suggestion list and whether it is displayed. */
    var suggestionItems: seq<string>
    var suggestionsShown: bool
    /** The output regions. */
    var translation: string
    var phonetic: string
    var wordClass: string
    var meanings: seq<string>
    var affixAnalysis: Panel<AffixAnalysis>
    var affixExamples: Panel<ExampleSection>
    var wordComparison: Panel<SimilarWord>
    /** Every screen rendered so far, oldest first. */
    ghost var rendered: seq<View>

    function Regions(): View
      reads this
    {
      View(translation, phonetic, wordClass, meanings, affixAnalysis, affixExamples, wordComparison)
    }

    /** A loaded table is well formed, and every listed suggestion is one of its words. */
    ghost predicate Valid()
      reads this
    {
      && (wordData.Some? ==> wordData.value.Valid())
      && forall w :: w in suggestionItems ==> wordData.Some? && w in wordData.value.entries
    }

    /** The page with `data` as the outcome of loading the words table (None: not loaded). */
    constructor (data: Option<Table<WordData>>)
      requires data.Some? ==> data.value.Valid()
      ensures Valid()
      ensures wordData == data && inputValue == ""
      ensures suggestionItems == [] && !suggestionsShown
      ensures Regions() == IdleView && rendered == []
    {
      wordData := data;
      inputValue := "";
      suggestionItems := [];
      suggestionsShown := false;
      translation, phonetic, wordClass, meanings := "", "", "", [];
      affixAnalysis, affixExamples, wordComparison := Blocks([]), Blocks([]), Blocks([]);
      rendered := [];
    }

    method HideSuggestions()
      modifies this`suggestionsShown
      ensures !suggestionsShown
    {
      suggestionsShown := false;
    }

    /**
     * `showSuggestions`: list the matches of the normalised input; with no
     * input, no table or no match, hide the list and render nothing.
     */
    method ShowSuggestions()
      requires Valid()
      modifies this`suggestionItems, this`suggestionsShown
      ensures Valid()
      ensures Suggestions(wordData, Normalize(inputValue)) == [] ==>
                !suggestionsShown && suggestionItems == old(suggestionItems)
      ensures Suggestions(wordData, Normalize(inputValue)) != [] ==>
                suggestionsShown && suggestionItems == Suggestions(wordData, Normalize(inputValue))
    {
      ghost var expected := Suggestions(wordData, Normalize(inputValue));
      var input := Normalize(inputValue);
      if input == [] || wordData.None? {
        assert expected == [];
        HideSuggestions();
      } else {
        var matches := FirstMatches(wordData.value.keys, HasPrefix(input), LIST_LIMIT);
        assert expected == matches;
        SuggestionsFacts(wordData, input);
        if |matches| == 0 {
          HideSuggestions();
        } else {
          suggestionItems := matches;
          suggestionsShown := true;
        }
      }
      assert Suggestions(wordData, Normalize(inputValue)) == expected;
    }

    /** The `input` event: the box now holds `value`. */
    method OnInput(value: string)
      requires Valid()
      modifies this`inputValue, this`suggestionItems, this`suggestionsShown
      ensures Valid()
      ensures inputValue == value
      ensures Suggestions(wordData, Normalize(value)) == [] ==>
                !suggestionsShown && suggestionItems == old(suggestionItems)
      ensures Suggestions(wordData, Normalize(value)) != [] ==>
                suggestionsShown && suggestionItems == Suggestions(wordData, Normalize(value))
    {
      ghost var expected := Suggestions(wordData, Normalize(value));
      inputValue := value;
      ShowSuggestions();
      assert Suggestions(wordData, Normalize(inputValue)) == expected;
    }

    method ShowLoading()
      modifies this`translation, this`phonetic, this`wordClass, this`meanings
      modifies this`affixAnalysis, this`affixExamples, this`wordComparison, this`rendered
      ensures Regions() == LoadingView
      ensures phonetic == "" && wordClass == "" && meanings == []
      ensures rendered == old(rendered) + [LoadingView]
    {
      translation := QUERYING;
      phonetic := "";
      wordClass := "";
      meanings := [];
      affixAnalysis := Notice(ANALYZING);
      affixExamples := Notice(QUERYING);
      wordComparison := Notice(QUERYING);
      rendered := rendered + [Regions()];
    }

    method DisplayError(message: string)
      modifies this`translation, this`phonetic, this`wordClass, this`meanings
      modifies this`affixAnalysis, this`affixExamples, this`wordComparison, this`rendered
      ensures Regions() == ErrorView(message)
      ensures rendered == old(rendered) + [ErrorView(message)]
    {
      translation := FAILED;
      phonetic := "";
      wordClass := "";
      meanings := [];
      affixAnalysis := ErrorBox(message);
      affixExamples := Notice(UNAVAILABLE);
      wordComparison := Notice(UNAVAILABLE);
      rendered := rendered + [Regions()];
    }

    method DisplayAffixAnalysis(data: WordData)
      modifies this`affixAnalysis
      ensures affixAnalysis == AnalysisPanel(data)
    {
      affixAnalysis := Blocks([]);
      if data.affixAnalysis == [] {
        affixAnalysis := Notice(NO_ANALYSIS);
        return;
      }
      affixAnalysis := Blocks(data.affixAnalysis);
    }

    /** `findAffixExamples`: scans every key, keeping a match only while fewer than five are kept. */
    method FindAffixExamples(affix: string) returns (examples: seq<string>)
      ensures examples == AffixExamples(wordData, affix)
    {
      examples := [];
      if wordData.None? {
        // iterating over a null table visits no key
        return;
      }
      var keys := wordData.value.keys;
      ghost var q := HasInfix(RemoveFirst(affix, '-'));
      var i := 0;
      while i < |keys|
        invariant 0 <= i <= |keys|
        invariant examples == Take(Filter(keys[..i], q), LIST_LIMIT)
      {
        var word := keys[i];
        FilterStep(keys, q, i);
        TakeStep(Filter(keys[..i], q), word, LIST_LIMIT);
        if Contains(word, RemoveFirst(affix, '-')) && |examples| < LIST_LIMIT {
          examples := examples + [word];
        }
        i := i + 1;
      }
      assert keys[..i] == keys;
    }

    /** `displayAffixExamples`: one section per affix with examples, or the placeholder. */
    method DisplayAffixExamples(data: WordData)
      modifies this`affixExamples
      ensures affixExamples == ExamplesPanel(wordData, data.affixAnalysis)
    {
      affixExamples := Blocks([]);
      if data.affixAnalysis == [] {
        affixExamples := Notice(NO_EXAMPLES);
        return;
      }
      var notes := data.affixAnalysis;
      var i := 0;
      while i < |notes|
        invariant 0 <= i <= |notes|
        invariant affixExamples == Blocks(ExampleSections(wordData, notes[..i]))
      {
        var affixPart := notes[i].part;
        var examples := FindAffixExamples(affixPart);
        assert notes[..i + 1][..i] == notes[..i];
        if |examples| > 0 {
          affixExamples := Blocks(affixExamples.items + [ExampleSection(affixPart, examples)]);
        }
        i := i + 1;
      }
      assert notes[..i] == notes;
      if affixExamples.items == [] {
        affixExamples := Notice(NO_EXAMPLES);
      }
    }

    method DisplayWordComparison(data: WordData)
      modifies this`wordComparison
      ensures wordComparison == ComparisonPanel(data)
    {
      wordComparison := Blocks([]);
      if data.similarWords == [] {
        wordComparison := Notice(NO_COMPARISON);
        return;
      }
      wordComparison := Blocks(data.similarWords);
    }

    method DisplayWordData(data: WordData)
      modifies this`translation, this`phonetic, this`wordClass, this`meanings
      modifies this`affixAnalysis, this`affixExamples, this`wordComparison, this`rendered
      ensures Regions() == PopulatedView(wordData, data)
      ensures rendered == old(rendered) + [PopulatedView(wordData, data)]
    {
      translation := data.translation;
      phonetic := data.phonetic.GetOr("");
      wordClass := data.wordClass;
      meanings := data.meanings;
      DisplayAffixAnalysis(data);
      DisplayAffixExamples(data);
      DisplayWordComparison(data);
      rendered := rendered + [Regions()];
    }

    /**
     * `searchWord`: with no table, straight to the error screen; otherwise the
     * loading screen, then (when the delay elapses) the record or a not-found error.
     */
    method SearchWord(word: string)
      modifies this`translation, this`phonetic, this`wordClass, this`meanings
      modifies this`affixAnalysis, this`affixExamples, this`wordComparison, this`rendered
      ensures Regions() == SearchView(wordData, word)
      ensures wordData.None? ==> rendered == old(rendered) + [ErrorView(NOT_LOADED)]
      ensures wordData.Some? ==> rendered == old(rendered) + [LoadingView, SearchView(wordData, word)]
    {
      if wordData.None? {
        DisplayError(NOT_LOADED);
        return;
      }
      ShowLoading();
      if word in wordData.value.entries {
        DisplayWordData(wordData.value.entries[word]);
      } else {
        DisplayError(NotFoundMessage(word));
      }
    }

    /** The form's `submit` event: look up the normalised input, or do nothing when it is empty. */
    method Submit()
      modifies this`translation, this`phonetic, this`wordClass, this`meanings
      modifies this`affixAnalysis, this`affixExamples, this`wordComparison, this`rendered
      ensures Normalize(inputValue) == [] ==> unchanged(this)
      ensures Normalize(inputValue) != [] ==> Regions() == SearchView(wordData, Normalize(inputValue))
      ensures Normalize(inputValue) != [] && wordData.None? ==> rendered == old(rendered) + [ErrorView(NOT_LOADED)]
      ensures Normalize(inputValue) != [] && wordData.Some? ==>
                rendered == old(rendered) + [LoadingView, SearchView(wordData, Normalize(inputValue))]
    {
      var word := Normalize(inputValue);
      if word != [] {
        SearchWord(word);
      }
    }

    /**
     * A click on a suggestion: the box takes the word verbatim, it is looked
     * up and the list hides. A listed word always shows its record.
     */
    method ChooseSuggestion(word: string)
      requires Valid()
      modifies this`inputValue, this`suggestionsShown
      modifies this`translation, this`phonetic, this`wordClass, this`meanings
      modifies this`affixAnalysis, this`affixExamples, this`wordComparison, this`rendered
      ensures Valid()
      ensures inputValue == word && !suggestionsShown
      ensures Regions() == SearchView(wordData, word)
      ensures wordData.None? ==> rendered == old(rendered) + [ErrorView(NOT_LOADED)]
      ensures wordData.Some? ==> rendered == old(rendered) + [LoadingView, SearchView(wordData, word)]
      ensures word in suggestionItems ==>
                wordData.Some? && Regions() == PopulatedView(wordData, wordData.value.entries[word])
    {
      inputValue := word;
      SearchWord(word);
      HideSuggestions();
    }
  }
}
