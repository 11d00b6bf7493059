/**
 * The backend word store: the loaded word table, the curated affix table, and
 * the lookups the HTTP routes answer from them.
 */
module DataLoading {
  import opened Wrappers
  import opened Text
  import opened Tables
  import opened Models

  /** An entry of the curated affix table; only its optional `examples` list is consulted. */
  datatype PrefixEntry = PrefixEntry(examples: Option<seq<string>>)

  /**
   * How many words the fallback affix scan can return: the word is appended
   * before the `>= limit` test, so a limit below one still lets one through.
   */
  function ScanBound(limit: int): (b: nat)
    ensures 1 <= b
    ensures 1 <= limit ==> b == limit
    ensures limit < 1 ==> b == 1
  {
    if 1 <= limit then limit else 1
  }

  /** Keys are not lower-cased when loaded, so a key with an upper-case letter is never looked up. */
  lemma MixedCaseKeyUnreachable(k: string)
    requires Lower(k) != k
    ensures forall w :: Lower(w) != k
  {
    forall w
      ensures Lower(w) != k
    {
      LowerIdempotent(w);
    }
  }

  /**
   * Lookups ignore the case of the query: a word and its lower-cased form
   * find the same record (or both find none).
   */
  lemma LookupIgnoresCase(store: DataLoader, word: string)
    requires store.Valid()
    ensures store.GetWordData(Lower(word)) == store.GetWordData(word)
    ensures store.WordExists(Lower(word)) == store.WordExists(word)
  {
    LowerIdempotent(word);
  }

  /** What the Python slice of the prefix matches keeps, stated on a well-formed table. */
  lemma SuggestionFacts(t: Table<WordData>, p: string, limit: int)
    requires t.Valid()
    ensures var r := SliceTo(Filter(t.keys, HasPrefix(p)), limit);
            && (forall w :: w in r ==> w in t.entries && StartsWith(w, p))
            && Distinct(r) && IsSubsequence(r, t.keys)
            && (0 <= limit ==> r == FirstMatches(t.keys, HasPrefix(p), limit))
            && (0 <= limit && |r| < limit ==> forall w :: w in t.entries && StartsWith(w, p) ==> w in r)
  {
    var q := HasPrefix(p);
    var r := SliceTo(Filter(t.keys, q), limit);
    SliceToFacts(t.keys, q, limit);
    forall w | w in r
      ensures w in t.entries && StartsWith(w, p)
    {
      assert w in Filter(t.keys, q);
    }
    if 0 <= limit {
      assert r == FirstMatches(t.keys, q, limit);
      FirstMatchesFacts(t.keys, q, limit);
    }
  }

  /** A scan that has collected `bound` matches by key `i` holds the first `bound` matches of the whole table. */
  lemma ScanStopsFull(keys: seq<string>, q: Query, i: nat, bound: nat)
    requires i < |keys| && |Filter(keys[..i + 1], q)| == bound
    ensures Filter(keys[..i + 1], q) == FirstMatches(keys, q, bound)
  {
    assert keys[..i + 1] + keys[i + 1..] == keys;
    FilterAppend(keys[..i + 1], keys[i + 1..], q);
    TakeFull(Filter(keys[..i + 1], q), Filter(keys[i + 1..], q), bound);
  }

  /** The fallback scan's words are distinct stored words that contain the cleaned affix. */
  lemma FallbackFacts(t: Table<WordData>, clean: string, bound: nat)
    requires t.Valid()
    ensures var r := FirstMatches(t.keys, HasInfix(clean), bound);
            && Distinct(r)
            && forall w :: w in r ==> w in t.entries && Contains(w, clean)
  {
    FirstMatchesFacts(t.keys, HasInfix(clean), bound);
  }

  class DataLoader {
    /** `words_data`: word -> record, in the order the JSON file listed the words. */
    var wordsData: Table<WordData>
    /** `prefixes_data`: curated affix -> entry. */
    var prefixesData: map<string, PrefixEntry>

    ghost predicate Valid()
      reads this
    {
      wordsData.Valid()
    }

    /** The store once `load_all_data` has filled it with the given tables. */
    constructor (words: Table<WordData>, prefixes: map<string, PrefixEntry>)
      requires words.Valid()
      ensures Valid()
      ensures wordsData == words && prefixesData == prefixes
    {
      wordsData := words;
      prefixesData := prefixes;
    }

    /** `get_word_data`: the record stored under the lower-cased word, if that key exists. */
    function GetWordData(word: string): (r: Option<WordData>)
      reads this
      requires Valid()
      ensures r.Some? <==> Lower(word) in wordsData.keys
      ensures r.Some? ==> r.value == wordsData.entries[Lower(word)]
    {
      if Lower(word) in wordsData.entries then Some(wordsData.entries[Lower(word)]) else None
    }

    /** `word_exists`: true exactly when `get_word_data` finds a record. */
    function WordExists(word: string): (r: bool)
      reads this
      requires Valid()
      ensures r <==> GetWordData(word).Some?
    {
      Lower(word) in wordsData.entries
    }

    /**
     * `get_suggestions`: the words starting with the lower-cased prefix, in
     * table order, cut by the Python slice `[:limit]`.
     */
    function GetSuggestions(prefix: string, limit: int): (r: seq<string>)
      reads this
      requires Valid()
      ensures forall w :: w in r ==> w in wordsData.entries && StartsWith(w, Lower(prefix))
      ensures Distinct(r) && IsSubsequence(r, wordsData.keys)
      ensures 0 <= limit ==> r == FirstMatches(wordsData.keys, HasPrefix(Lower(prefix)), limit)
      ensures 0 <= limit ==> |r| <= limit
      ensures 0 <= limit && |r| < limit ==>
                forall w :: w in wordsData.entries && StartsWith(w, Lower(prefix)) ==> w in r
      ensures limit < 0 ==> r <= Filter(wordsData.keys, HasPrefix(Lower(prefix)))
    {
      SuggestionFacts(wordsData, Lower(prefix), limit);
      SliceTo(Filter(wordsData.keys, HasPrefix(Lower(prefix))), limit)
    }

    /** `get_all_words`: every key, once each, in table order. */
    function GetAllWords(): (r: seq<string>)
      reads this
      requires Valid()
      ensures Distinct(r)
      ensures forall w :: w in r <==> w in wordsData.entries
      ensures r == wordsData.keys
    {
      wordsData.keys
    }

    /**
     * `get_affix_examples`: a curated affix answers from its own `examples`
     * list (missing means empty) cut to `limit`, without looking at the words;
     * any other affix scans the word keys for the affix with every '-' removed,
     * stopping as soon as `limit` words are collected.
     */
    method GetAffixExamples(affix: string, limit: int) returns (examples: seq<string>)
      requires Valid()
      ensures affix in prefixesData ==>
                examples == SliceTo(prefixesData[affix].examples.GetOr([]), limit)
      ensures affix !in prefixesData ==>
                examples == FirstMatches(wordsData.keys, HasInfix(RemoveAll(affix, '-')), ScanBound(limit))
      ensures affix !in prefixesData ==>
                && Distinct(examples)
                && |examples| <= ScanBound(limit)
                && forall w :: w in examples ==> w in wordsData.entries && Contains(w, RemoveAll(affix, '-'))
    {
      if affix in prefixesData {
        return SliceTo(prefixesData[affix].examples.GetOr([]), limit);
      }
      examples := [];
      var cleanAffix := RemoveAll(affix, '-');
      var q := HasInfix(cleanAffix);
      var keys := wordsData.keys;
      ghost var bound := ScanBound(limit);
      var i := 0;
      while i < |keys|
        invariant 0 <= i <= |keys|
        invariant examples == Filter(keys[..i], q)
        invariant |examples| < bound
      {
        var word := keys[i];
        FilterStep(keys, q, i);
        FilterNotYetSeen(keys, q, i);
        if Contains(word, cleanAffix) && word !in examples {
          examples := examples + [word];
          if |examples| >= limit {
            ScanStopsFull(keys, q, i, bound);
            break;
          }
        }
        i := i + 1;
      }
      if i == |keys| {
        assert keys[..i] == keys;
      }
      FallbackFacts(wordsData, cleanAffix, bound);
    }
  }
}
