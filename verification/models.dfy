/** The records a word lookup returns (the pydantic schemas of the backend). */
module Models {
  import opened Wrappers

  /** One morpheme of a word: `kind` is "prefix", "root" or "suffix"; `part` may carry '-' markers. */
  datatype AffixAnalysis = AffixAnalysis(kind: string, part: string, meaning: string)

  /** A confusable word and how it differs in use. */
  datatype SimilarWord = SimilarWord(word: string, translation: string, difference: string)

  /** Everything stored about one word; `phonetic` may be absent. */
  datatype WordData = WordData(
    translation: string,
    phonetic: Option<string>,
    wordClass: string,
    meanings: seq<string>,
    affixAnalysis: seq<AffixAnalysis>,
    similarWords: seq<SimilarWord>)
}
