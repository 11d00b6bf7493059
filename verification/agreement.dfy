/**
 * How the page's own lookups relate to the backend's: the page scans its
 * copy of the same words table instead of calling the routes.
 */
module FrontBackAgreement {
  import opened Wrappers
  import opened Text
  import opened Tables
  import opened Models
  import opened DataLoading
  import opened WordAnalyzerPage

  /**
   * For a non-empty box, the page's suggestion list is what the backend's
   * `get_suggestions` answers for the same text with a limit of five. (For an
   * empty box the page shows nothing while the backend lists the first words.)
   */
  lemma SuggestionsAgree(store: DataLoader, raw: string)
    requires store.Valid()
    ensures Normalize(raw) != [] ==>
              Suggestions(Some(store.wordsData), Normalize(raw)) == store.GetSuggestions(Normalize(raw), LIST_LIMIT as int)
    ensures Normalize(raw) == [] ==> Suggestions(Some(store.wordsData), Normalize(raw)) == []
  {
    LowerIdempotent(Trim(raw));
  }

  /**
   * The page's affix scan and the backend's fallback scan (for an affix
   * missing from the curated table, with a limit of five) pick the same
   * words when removing the first '-' already removes them all.
   */
  lemma AffixScansAgree(t: Table<WordData>, affix: string)
    requires '-' !in RemoveFirst(affix, '-')
    ensures AffixExamples(Some(t), affix) == FirstMatches(t.keys, HasInfix(RemoveAll(affix, '-')), ScanBound(LIST_LIMIT as int))
  {
    RemoveFirstVersusAll(affix, '-');
  }

  /** An affix with two '-' marks, such as "-a-", is cleaned differently by the two scans. */
  lemma AffixCleaningDiffers()
    ensures RemoveFirst("-a-", '-') == "a-"
    ensures RemoveAll("-a-", '-') == "a"
  {
    assert "-a-"[1..] == "a-";
    assert "a-"[1..] == "-";
  }
}
