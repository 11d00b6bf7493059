# English word analyzer — a Dafny model

The system is a small English-word lookup tool. A browser page
(`js/app.js`, class `WordAnalyzer`) loads a JSON table of words and answers
lookups from its own copy of that table. For each word it shows:

- the translation, phonetic, word class and meanings;
- a root/affix breakdown;
- for each affix, up to five table words containing the affix with its first '-' removed (for "uni-", words containing "uni"; the looked-up word itself can be among them);
- a list of confusable words.

While the user types, a suggestion list shows up to five table words that
start with the box text, trimmed and lower-cased. A Python backend answers the same kinds of question:

- `data_loader.py`, class `DataLoader`: word lookup, prefix suggestions, affix examples and the word list.
- `main.py`, route `/api/analyze`: classifies a word against a list of prefix, suffix and root entries.

The model is split into these modules:

- `Text` (`text.dfy`): the string operations the code relies on:
  - `toLowerCase`/`lower`, on ASCII letters;
  - JavaScript `trim`, over the ECMAScript white-space set;
  - `startsWith`, `endsWith` and substring search;
  - JavaScript `replace('-', '')`, which removes only the FIRST hyphen;
  - Python `replace("-", "")`, which removes every hyphen.
- `Tables` (`tables.dfy`): an insertion-ordered table (a Python dict, or a parsed JSON object enumerated by `Object.keys`/`for … in`), and the scans over its keys:
  - filtering;
  - keeping the first n matches;
  - Python's `s[:n]` slice, including negative `n`.
- `Models` (`models.dfy`): the stored records.
- `DataLoading` (`data_loader.dfy`): the backend store as a class whose methods read its two tables.
- `AffixClassifier` (`analyze.dfy`): the `/api/analyze` loop and what its answer means.
- `WordAnalyzerPage` (`word_analyzer.dfy`): the page, modelled as follows.
  - It is a class. Its fields are the loaded table, the search box, the suggestion list and the output regions.
  - The methods update these fields the way the event handlers update the page.
  - A ghost trace `rendered` records each screen shown: loading, then the record or the error.
  - Pure functions state what each region must show.
- `FrontBackAgreement` (`agreement.dfy`): where the page's own scans agree with the backend's answers, and where they do not.

Some behaviours a reader might expect are not in the code; the model
follows the code:

- **Key case.** Keys are stored exactly as they appear in the JSON file; they are not lower-cased at load time (`data_loader.py:21-22`). So the backend's `get_word_data` and `word_exists` never find a key containing an upper-case letter (`DataLoading.MixedCaseKeyUnreachable`). The page behaves differently for such a key, say "aB". It is suggested for the box text "a", because the suggestion scan compares keys as stored. Clicking the suggestion looks up "aB" verbatim and shows its record. Submitting "aB" from the box looks up "ab", so it never shows the record of "aB" (`WordAnalyzerPage.MixedCaseKeyOnlyByClick`).
- **Suggestion order.** Suggestions are not sorted. They follow the table's enumeration order (`data_loader.py:47-51`, `js/app.js:76-78`).
- **Stale responses.** No suggestion response is discarded as stale. The page computes suggestions synchronously from its own table (`js/app.js:69-99`).
- **Hyphens.** The two affix scans clean the affix differently: the page removes the first '-' and the backend removes all of them (`FrontBackAgreement.AffixScansAgree`, `FrontBackAgreement.AffixCleaningDiffers`).

## Model

| member | source | states |
|---|---|---|
| Text.LowerChar | js/app.js:50 | an ASCII capital maps to its small letter (32 code points lower); every other character is unchanged |
| Text.Lower | data_loader.py:42 | lower-casing keeps the length and maps each character by `LowerChar` |
| Text.LowerIdempotent | data_loader.py:42 | lower-casing an already lower-cased string changes nothing |
| Text.LowerKeepsSpace | js/app.js:50 | lower-casing neither creates nor removes white space |
| Text.LowerKeepsTrimmed | js/app.js:50 | a string with non-space ends still has non-space ends once lower-cased |
| Text.StartsWith | js/app.js:77 | `startsWith`/`startswith`: the prefix is a leading part of the text |
| Text.EndsWith | main.py:33 | `endswith`: the suffix is no longer than the text and equals its last characters |
| Text.Contains | js/app.js:210 | `includes`/`in`: the text starts with the searched string, or its tail contains it |
| Text.IsSpace | js/app.js:50 | the characters `trim` removes: the ECMAScript white-space and line-terminator characters (tab, line feed, vertical tab, form feed, carriage return, space, no-break space, the byte-order mark, the space separators U+1680, U+2000–U+200A, U+202F, U+205F, U+3000, and U+2028, U+2029) |
| Text.LeadingSpace | js/app.js:50 | counts the white space the text starts with: never more than its length, and the next character is not white space |
| Text.TrailingSpace | js/app.js:50 | counts the white space the text ends with: never more than its length, and the character before it is not white space |
| Text.LeadingSpaceBlank | js/app.js:50 | every counted leading character is white space |
| Text.TrailingSpaceBlank | js/app.js:50 | every counted trailing character is white space |
| Text.TrimStart | js/app.js:50 | the text without its leading white space does not start with white space |
| Text.TrimEnd | js/app.js:50 | the text without its trailing white space does not end with white space |
| Text.Trim | js/app.js:50 | the trimmed text is empty or neither starts nor ends with white space |
| Text.TrimIsSlice | js/app.js:50 | the trimmed text occurs in the input right after the leading white space; only white space lies before and after it |
| Text.TrimmedFixed | js/app.js:50 | text that neither starts nor ends with white space is unchanged by trimming |
| Text.ContainsAt | main.py:35 | `sub in s` holds exactly when `sub` occurs at some position of `s` |
| Text.ContainsWithin | js/app.js:118 | a string built around `sub` contains `sub` |
| Text.RemoveAll | data_loader.py:61 | no hyphen is left; a string without hyphens is unchanged; the result is never longer; every other character is kept, with its count: the multiset of characters is the input's with the hyphen's count set to zero |
| Text.RemoveAllAfterFirst | data_loader.py:61 | removing every hyphen after the first one has been removed gives the same as removing every hyphen from the original |
| Text.RemoveFirst | js/app.js:210 | a string without the character is unchanged; otherwise exactly one character is removed |
| Text.RemoveFirstAt | js/app.js:210 | the character removed is the first occurrence: the result is the text before it followed by the text after it |
| Text.RemoveFirstVersusAll | js/app.js:210 | removing the first hyphen equals removing all of them exactly when no hyphen is left after removing the first |
| Tables.Filter | data_loader.py:47-50 | the filtered keys are never more than the keys; each is a key the query accepts |
| Tables.FilterComplete | data_loader.py:47-50 | no accepted key is left out of the filtered list |
| Tables.FilterAppend | data_loader.py:62-64 | filtering a concatenation is the concatenation of the filtered parts |
| Tables.FilterStep | data_loader.py:62-64 | scanning one more key appends it exactly when the query accepts it |
| Tables.FilterNotYetSeen | data_loader.py:63 | in a table without repeated keys, the key being scanned is not among the matches already kept, so `word not in examples` always holds |
| Tables.FilterDistinct | data_loader.py:47-50 | filtering keys without repeats yields matches without repeats |
| Tables.FilterSubsequence | data_loader.py:47-50 | filtering keeps the keys' enumeration order |
| Tables.PrefixOfSubsequence | data_loader.py:51 | a leading slice of an order-preserving selection still preserves order |
| Tables.Take | js/app.js:78 | `slice(0, n)` is a prefix of the input, of length `min(n, len)` |
| Tables.TakeHas | js/app.js:76-78 | an element at a position below `n` is among the first `n` |
| Tables.TakeFull | data_loader.py:65-66 | once the first part already holds `n` elements, taking `n` drops everything after it |
| Tables.TakeStep | js/app.js:209-213 | scanning one more element appends it only while fewer than `n` are held |
| Tables.FirstMatches | js/app.js:76-78 | at most `n` matches, forming a prefix of all matches in table order |
| Tables.FirstMatchesFacts | js/app.js:76-78 | each first match is an accepted key; order is kept; there are no repeats when the keys have none; fewer than `n` means every accepted key is included |
| Tables.FilterSplitAt | js/app.js:76-78 | an accepted key splits the matches into the matches before it, the key itself, and the matches after it |
| Tables.FirstMatchesEarliest | js/app.js:76-78 | an accepted key left out implies the result is full and every kept key comes before it |
| Tables.SliceTo | data_loader.py:51 | Python `s[:n]`: a prefix of length `min(n, len)` for `n >= 0`, and of length `max(len + n, 0)` for negative `n` |
| Tables.SliceToFacts | data_loader.py:51 | the sliced suggestions keep table order and have no repeats |
| DataLoading.ScanBound | data_loader.py:63-66 | the fallback scan keeps at most `max(limit, 1)` words: `limit` words for a positive limit, and exactly one for a limit below one, since the append comes before the `>= limit` test |
| DataLoading.MixedCaseKeyUnreachable | data_loader.py:21-22 | a stored key that is not lower-case is never the lower-cased form of any query, so no lookup reaches it |
| DataLoading.LookupIgnoresCase | data_loader.py:40-42 | a word and its lower-cased form find the same record, and the same existence answer |
| DataLoading.SuggestionFacts | data_loader.py:44-51 | on a well-formed table the sliced prefix matches are distinct stored words starting with the prefix, in table order; for `limit >= 0` they are the first `limit` matches, with none missed when fewer are returned |
| DataLoading.ScanStopsFull | data_loader.py:62-66 | a scan that has collected `bound` matches by some key holds exactly the first `bound` matches of the whole table, so stopping there loses nothing |
| DataLoading.FallbackFacts | data_loader.py:60-67 | the fallback scan's words are distinct stored words containing the cleaned affix |
| DataLoading.DataLoader.constructor | data_loader.py:7-11 | the store holds the given word table (well formed) and curated affix table |
| DataLoading.DataLoader.GetWordData | data_loader.py:40-42 | a record is returned exactly when the lower-cased word is a key, and it is the record stored under that key |
| DataLoading.DataLoader.WordExists | data_loader.py:73-75 | true exactly when `get_word_data` finds a record |
| DataLoading.DataLoader.GetSuggestions | data_loader.py:44-51 | every suggestion is a stored word starting with the lower-cased prefix; no repeats; table order; for `limit >= 0` these are the first `limit` such words, with none missed when fewer are returned |
| DataLoading.DataLoader.GetAllWords | data_loader.py:69-71 | the stored words in table order; every stored word appears, once each |
| DataLoading.DataLoader.GetAffixExamples | data_loader.py:53-67 | a curated affix answers with its `examples` list (missing means empty) sliced by `[:limit]`; any other affix gets the first `max(limit, 1)` words, in table order, that contain the affix with every '-' removed; these are distinct stored words |
| AffixClassifier.Fits | main.py:29-36 | an entry fits a slot when its type is that slot and the word starts with it (prefix), ends with it (suffix) or contains it (root) |
| AffixClassifier.LastFit | main.py:27-36 | the last entry of the list that fits the slot, or none; what it returns is stated by `LastFitSound` and `LastFitIsLast` |
| AffixClassifier.LastFitSound | main.py:27-36 | a filled slot holds a list entry of that kind that fits the word; a slot is empty exactly when no entry fits it |
| AffixClassifier.Classify | main.py:19-25 | the answer echoes the word as given |
| AffixClassifier.Analyze | main.py:18-38 | the loop's answer is, for each slot, the last entry that fits it |
| AffixClassifier.LastFitIsLast | main.py:27-36 | no entry after the chosen one fits the same slot |
| AffixClassifier.LastFitOwnKind | main.py:29-36 | a slot depends only on the list's entries of its own kind |
| AffixClassifier.OfKindAppend | main.py:27-36 | the entries of one kind in a joined list are those of each part, joined |
| AffixClassifier.UnknownKindIgnored | main.py:31-36 | inserting an entry whose type is none of prefix, suffix or root never changes the answer |
| AffixClassifier.SlotsIndependent | main.py:31-36 | two lists with the same entries of one kind give the same answer for that slot |
| WordAnalyzerPage.NotFoundMessage | js/app.js:118 | the not-found message contains the word looked up |
| WordAnalyzerPage.Normalize | js/app.js:50 | the normalised input has non-space ends and no capital letters; it is empty exactly when the trimmed input is |
| WordAnalyzerPage.NormalizeIdempotent | js/app.js:50 | normalising twice gives the same text as normalising once |
| WordAnalyzerPage.Suggestions | js/app.js:69-83 | none for an empty input or an unloaded table; otherwise at most five keys, forming a prefix of all keys that start with the input, in table order |
| WordAnalyzerPage.SuggestionsFacts | js/app.js:76-78 | every suggestion is a key starting with the input; fewer than five means no such key was missed |
| WordAnalyzerPage.AffixExamples | js/app.js:205-215 | none before the table loads; otherwise at most five keys, forming a prefix of all keys that contain the affix with its first '-' removed, in table order |
| WordAnalyzerPage.AffixExamplesFacts | js/app.js:209-213 | every example is a key containing the cleaned affix; fewer than five means no such key was missed |
| WordAnalyzerPage.ExampleSections | js/app.js:184-198 | one section per affix note whose example list is not empty, in note order, holding that affix's examples; its properties are stated by `ExampleSectionsFacts`, `ExampleSectionsCount` and `ExampleSectionsComplete` |
| WordAnalyzerPage.ExampleSectionsFacts | js/app.js:184-198 | each section belongs to an affix note, holds between one and five example words, and those are that affix's examples; there are no sections exactly when no note has an example |
| WordAnalyzerPage.ExampleSectionsCount | js/app.js:184-198 | there are never more sections than affix notes |
| WordAnalyzerPage.ExampleSectionsComplete | js/app.js:184-198 | every affix note with at least one example word gets a section holding exactly those examples |
| WordAnalyzerPage.AnalysisPanel | js/app.js:157-174 | the "no analysis" placeholder appears exactly when the record has no affix notes; otherwise the region is exactly one block per note, in order |
| WordAnalyzerPage.ExamplesPanel | js/app.js:176-203 | the "no examples" placeholder appears exactly when no affix of the record has an example word; otherwise the region is exactly the sections: each has one to five words and belongs to a note's affix, and every note with examples has its section |
| WordAnalyzerPage.ComparisonPanel | js/app.js:217-236 | the "no comparison" placeholder appears exactly when the record has no similar words; otherwise the region is exactly one block per similar word, in order |
| WordAnalyzerPage.ErrorView | js/app.js:238-252 | the error screen: the failure label, cleared phonetic, word class and meanings, the message in the analysis region, "no data" in the other two |
| WordAnalyzerPage.PopulatedView | js/app.js:133-155 | the record's translation, word class and meanings are shown verbatim; an absent phonetic shows as empty |
| WordAnalyzerPage.LoadingView | js/app.js:123-131 | the loading screen: the "querying" label and placeholders, with phonetic, word class and meanings cleared |
| WordAnalyzerPage.SearchView | js/app.js:105-121 | an unloaded table gives the "not loaded" error; a key shows its record; any other word gives the error screen with the not-found message, which names the word |
| WordAnalyzerPage.SuggestionHasRecord | js/app.js:86-94 | choosing a suggestion always shows a record, never the not-found error |
| WordAnalyzerPage.MixedCaseKeyOnlyByClick | js/app.js:50 | a suggested key with an upper-case letter shows its record when clicked, yet no text submitted from the box ever normalises to that key |
| WordAnalyzerPage.WordAnalyzer.constructor | js/app.js:3-11 | a new page holds the given well-formed table, an empty box and a hidden, empty suggestion list; it satisfies the page invariant (`Valid`: every listed suggestion is a stored word). The regions start empty (`IdleView`); that starting state is an assumption of the model, since the page's initial region contents come from its HTML, which is not part of this model |
| WordAnalyzerPage.WordAnalyzer.HideSuggestions | js/app.js:101-103 | the suggestion list is hidden |
| WordAnalyzerPage.WordAnalyzer.ShowSuggestions | js/app.js:69-99 | with no suggestions the list is hidden and its entries are left as they were; otherwise the list is shown and holds exactly the suggestions for the normalised box text; every listed entry stays a stored word |
| WordAnalyzerPage.WordAnalyzer.OnInput | js/app.js:57-59 | the box holds the new text and the suggestion list reflects it as `ShowSuggestions` states |
| WordAnalyzerPage.WordAnalyzer.ShowLoading | js/app.js:123-131 | the regions show the loading screen and it is appended to the trace |
| WordAnalyzerPage.WordAnalyzer.DisplayError | js/app.js:238-252 | the regions show the error screen for the message and it is appended to the trace |
| WordAnalyzerPage.WordAnalyzer.DisplayAffixAnalysis | js/app.js:157-174 | the analysis region becomes the record's analysis panel |
| WordAnalyzerPage.WordAnalyzer.FindAffixExamples | js/app.js:205-215 | the loop over all keys yields exactly the first five keys containing the affix with its first '-' removed |
| WordAnalyzerPage.WordAnalyzer.DisplayAffixExamples | js/app.js:176-203 | the examples region becomes the sections for the record's affix notes, or the placeholder when there are none |
| WordAnalyzerPage.WordAnalyzer.DisplayWordComparison | js/app.js:217-236 | the comparison region becomes the record's comparison panel |
| WordAnalyzerPage.WordAnalyzer.DisplayWordData | js/app.js:133-155 | every region shows the populated screen for the record, and that screen is appended to the trace |
| WordAnalyzerPage.WordAnalyzer.SearchWord | js/app.js:105-121 | with no table, the error screen is shown and no loading screen; with a table, the loading screen is shown first, then the record or the not-found error |
| WordAnalyzerPage.WordAnalyzer.Submit | js/app.js:48-54 | an empty normalised box changes nothing; otherwise the normalised text is looked up: with no table the trace gains only the "not loaded" error screen, with a table it gains the loading screen and then the result |
| WordAnalyzerPage.WordAnalyzer.ChooseSuggestion | js/app.js:90-94 | the box takes the word verbatim, the word is searched as `SearchWord` states (with no table the trace gains only the "not loaded" error screen, with a table it gains the loading screen and then the result), and the list is hidden; a word from the displayed list always shows its own record |
| FrontBackAgreement.SuggestionsAgree | js/app.js:69-78 | for non-empty box text, the page's suggestions equal the backend's `get_suggestions` with limit five; for empty box text the page suggests nothing |
| FrontBackAgreement.AffixScansAgree | js/app.js:205-215 | when the affix has at most one '-', the page's examples equal the backend's fallback scan with limit five |
| FrontBackAgreement.AffixCleaningDiffers | js/app.js:210 | for "-a-" the page searches for "a-" but the backend searches for "a" |

## Left out

- Loading the tables is not modelled: `load_all_data` (`data_loader.py:13-38`), `loadData` (`js/app.js:26-45`) and the module-level read of `roots_affixes.json` in `main.py` all read files or fetch over the network. The loaded tables are constructor or method parameters instead; an unloaded page table is `None`. The "load failed" error that `loadData` shows is not modelled.
- The page's `affixData` and `rootsData` and the backend's `roots_data` are loaded but never consulted by the modelled operations, so they are not modelled.
- FastAPI wiring is not modelled: the static-file mount, the route decorator and the `JSONResponse` serialisation. `AffixClassifier.Analyze` returns the result value.
- `AffixClassifier.Analyze` assumes every list entry has `affix` and `type` fields. A missing one raises `KeyError` in the route; that error path is not modelled. The other JSON fields of an entry are kept opaque as `fields`.
- DOM details are abstracted into region values: element creation, `innerHTML` markup and CSS classes. The click-outside listener (`js/app.js:62-66`) only calls `hideSuggestions`, modelled as `HideSuggestions`; the test on which element was clicked is not modelled.
- The 500 ms `setTimeout` in `searchWord` is taken as an immediate step. Interleavings with other events during the delay are not modelled.
- `Text.Lower` maps only ASCII A–Z. The non-ASCII case mappings of `toLowerCase` and Python's `lower` are not modelled.
- Lookups like `this.wordData[word]` on JavaScript `Object.prototype` property names (such as "constructor") are not modelled. Neither is the `Object.keys` rule that lists integer-like keys first. Keys are enumerated in table order.
- The Python default `limit=5` is not modelled as a default: `limit` is always an explicit argument.
- `static/js/app.js` is a variant of the page that calls the backend routes instead of scanning its own table; it is not part of this model.
- DataLoading.DataLoader.GetSuggestions: for a negative `limit` the contract states only that the result is a prefix of the matches. The exact length (`len + limit`, never below zero) is stated by `Tables.SliceTo`.
- AffixClassifier.Classify: its own contract states only that the word is echoed. What each slot holds is stated by `LastFitSound`, `LastFitIsLast` and `LastFitOwnKind`.
