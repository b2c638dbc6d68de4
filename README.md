# Movie app core: title resolution, recommendation reconciliation, Gemini post-processing, auth flags

This is a Dafny model of the decision logic of a React movie-browsing app. The app is backed by OMDb (catalog search and detail) and Gemini (title suggestions, storylines, age ratings). The network is replaced by oracle functions:

- `search: string -> Call<SearchReply>` stands for an OMDb `?s=` request.
- `detail: string -> Call<Movie>` stands for an OMDb `?i=` request.
- `suggest: string -> seq<string>` stands for `getAIMovieSuggestions`.
- `Call` is `Done(value)` or `Thrown` (a rejected axios promise).

Every outgoing request is appended to a request log (`seq<Request>`). That is how "no search is issued", "variants are tried in order" and "the fallback issues at most seven requests" become statable.

Modules:

- `Util`: `Option`, plus the JavaScript array operations the code uses (`slice(0, n)`, `findIndex`, `filter`, `flat`, `map`).
- `Strings`: JavaScript `trim` with the exact ECMAScript whitespace set, ASCII case mapping, `includes`, `split(c)[0]` and `split(c)`.
- `Net`: `Call` and the request log entries.
- `Omdb`: the reply records and the `searchMovies`/`getMovieById` result mapping.
  - The three title variants of `getMovieByTitle`. Its two regular expressions are modelled as leftmost-match scanners.
  - The exact/partial/first ranking of search hits.
- `TitleLookup`: `getMovieByTitle`.
  - `Lookup` is the specification: a fold over the variants with early exit.
  - `GetMovieByTitle`/`SearchVariants` are the code's loop, proved equal to it.
  - Lemmas cover the ordering and cut-off behaviour.
- `Gemini`: post-processing of Gemini replies.
  - Suggestion filtering and the line-by-line fallback.
  - Quote stripping for the storyline.
  - Rating normalisation against the fixed list.
- `Auth`: the `AuthStore` class with `login`/`logout`.
- `Recommendations`: `fetchAiRecommendations` for a non-blank prompt.
  - Specification folds for the title loop and the details loop, with lemmas.
  - The code's loops as methods proved equal to the folds.
- `Home`: the `HomePage` class.
  - The pending-movie login gate.
  - The AI row, prompt and input state, updated by `FetchAiRecommendations`.

Behaviour of note, modelled as the code has it:

- Variants are not skipped when equal to one another (Omdb.RepeatedVariant).
- The qualifier is removed wherever it first occurs, not only at the end.
- A variant with hits is not ranked: its first hit is fetched, and a failed fetch moves on to the next variant.
- A thrown request ends the lookup with null rather than counting as no match.
- The page's keyword retry fetches the first hit without checking its id.
- The empty row has three distinct messages, depending on where the flow ended, besides the partial-results and failure messages.

## Model

| member | source | states |
|---|---|---|
| Omdb.SearchResults | src/services/omdbApi.js:10-16 | searchMovies (and fetchMoviesByKeyword, lines 26-32, same body): the hits are empty exactly when Response is "False", Search is absent or Search is empty; otherwise they are the Search list |
| Omdb.MovieDetails | src/services/omdbApi.js:18-24 | getMovieById: null exactly when Response is "False", otherwise the reply itself |
| Omdb.Leftmost | src/services/omdbApi.js:48-49 | a regular expression is found at the leftmost position where it matches: that position matches and no earlier one does, and no match means no position matches |
| Omdb.LeftmostIs | src/services/omdbApi.js:48 | a match at i with none before it is the leftmost match |
| Omdb.KeywordFrom | src/services/omdbApi.js:48 | `(The\|Part\|Chapter)` under flag i: the alternatives are tried in order and the first that matches, ignoring ASCII case, is taken; none when no alternative matches |
| Omdb.KeywordEnd | src/services/omdbApi.js:48 | a keyword match ends after at least one character and within the text, and what it covers is a keyword in some mix of ASCII cases |
| Omdb.KeywordEndAt | src/services/omdbApi.js:48 | a keyword in any mix of ASCII cases is matched whole, and it does not start with whitespace |
| Omdb.NumberEnd | src/services/omdbApi.js:48 | a match of `\s+\d+` is a non-empty whitespace run followed by a non-empty digit run, and it takes the whole digit run (greedy `\d+`) |
| Omdb.NumberEndAt | src/services/omdbApi.js:48 | any non-empty whitespace run followed by any digit run is matched, up to the end of the digits |
| Omdb.RunTo | src/services/omdbApi.js:48-49 | a greedy run of characters of one class ends exactly at the first character outside the class |
| Omdb.QualifierLength | src/services/omdbApi.js:48 | a match of `:\s*(The\|Part\|Chapter)\s+\d+` has exactly that form: ':', a whitespace run, a keyword in some mix of ASCII cases, a non-empty whitespace run and a non-empty digit run, which it takes whole |
| Omdb.QualifierAt | src/services/omdbApi.js:48 | every text of the pattern's form is matched: ':', any whitespace, a keyword in any ASCII case, whitespace and a digit run not followed by a digit, up to the end of the digits |
| Omdb.PartQualifier | src/services/omdbApi.js:48 | ": Part " followed by digits is matched whole |
| Omdb.CutLeftmost | src/services/omdbApi.js:48 | `replace` without the g flag never lengthens the text |
| Omdb.StripQualifier | src/services/omdbApi.js:48 | the qualifier replace never lengthens the title |
| Omdb.StripQualifierNone | src/services/omdbApi.js:48 | a title with no qualifier anywhere is kept |
| Omdb.StripQualifierCuts | src/services/omdbApi.js:48 | exactly the leftmost qualifier is cut out, wherever it occurs, and the rest is kept |
| Omdb.StripQualifierSuffix | src/services/omdbApi.js:48 | a colon-free title followed by a whole qualifier loses exactly the qualifier |
| Omdb.StripNumberedPart | src/services/omdbApi.js:48 | the first variant of "Title: Part 2" is "Title" |
| Omdb.GroupEnd | src/services/omdbApi.js:49 | a match of `\s*\(.*?\)` is leading whitespace, '(', characters that are neither ')' nor line ends, and the first ')' after them |
| Omdb.StripGroups | src/services/omdbApi.js:49 | the global replace never lengthens the title; what it removes is stated by KeepPrefix, StripGroupsAfter and StripGroupsNoParen |
| Omdb.StripFrom | src/services/omdbApi.js:49 | the scan from position i never produces more than what is left of the text |
| Omdb.GroupEndAt | src/services/omdbApi.js:49 | whitespace, '(', a run free of ')' and line ends, and the ')' closing it are one match ending after that ')' |
| Omdb.GroupAt | src/services/omdbApi.js:49 | whitespace, '(', a body free of ')' and line ends, and ')' form one match whatever follows |
| Omdb.GroupWhole | src/services/omdbApi.js:49 | " (note)" is one match when note has no ')' and no line end |
| Omdb.KeepOne | src/services/omdbApi.js:49 | where no match starts, the character is kept and the scan moves on by one |
| Omdb.KeepFrom | src/services/omdbApi.js:49 | a stretch where no match starts is kept as it is |
| Omdb.SkipGroup | src/services/omdbApi.js:49 | where a match starts, the scan resumes at its end |
| Omdb.NoGroupAt | src/services/omdbApi.js:49 | no match starts anywhere in a text without '(' |
| Omdb.KeepPrefix | src/services/omdbApi.js:49 | a parenthesis-free prefix not ending in whitespace is kept whole |
| Omdb.StripGroupsAfter | src/services/omdbApi.js:49 | after such a prefix, the next group is cut out and the scan goes on after its first ')' |
| Omdb.NoGroupBefore | src/services/omdbApi.js:49 | no match starts in a parenthesis-free text that does not end in whitespace |
| Omdb.StripTrailingGroup | src/services/omdbApi.js:49 | "Title (2015)" loses its trailing annotation and keeps the title whole |
| Omdb.StripGroupsNoParen | src/services/omdbApi.js:49 | a title without '(' is left unchanged |
| Omdb.Variations | src/services/omdbApi.js:47-51 | the candidates that are non-empty and differ from the cleaned title, kept in their fixed order, repeats included (the filter over the candidate list); so at most three |
| Omdb.KeepVariants | src/services/omdbApi.js:51 | `.filter(t => t && t !== cleanTitle)` over the three candidates: equal to the filter, in order, repeats kept |
| Omdb.KeptFilter | src/services/omdbApi.js:51 | keeping each candidate that passes, one after the other, is the array filter |
| Omdb.Candidates | src/services/omdbApi.js:47-50 | three candidates in the fixed order, each trimmed and no longer than the title; the colon candidate has no ':' |
| Omdb.RepeatedVariant | src/services/omdbApi.js:47-51 | variants are not de-duplicated: "Title: Part 2" gives ["Title", "Title"] |
| Omdb.VariationsOf | src/services/omdbApi.js:47-51 | when the qualifier strip and the colon split give the same text and there are no groups, that text appears twice |
| Omdb.KeptTwice | src/services/omdbApi.js:51 | the filter keeps a candidate equal to the first one a second time and drops the one equal to the cleaned title |
| Omdb.NumberedPartHasNoGroup | src/services/omdbApi.js:49 | a numbered-part title has no parenthesised group to strip |
| Omdb.NumberedPartTrimmed | src/services/omdbApi.js:47-50 | a numbered-part title is its own trim and differs from its base |
| Omdb.NumberedPartBeforeColon | src/services/omdbApi.js:50 | the colon split of "Title: Part 2" is "Title" |
| Omdb.NoParenInNumberedPart | src/services/omdbApi.js:49 | a numbered-part title built from a parenthesis-free base has no '(' |
| Omdb.BeforeColon | src/services/omdbApi.js:50 | `split(':')[0]` of a colon-free text followed by ':' is that text |
| Omdb.BestMatch | src/services/omdbApi.js:71-80 | the chosen hit is the first case-insensitive exact title match if there is one; else the first partial match (title contains the query, or the query contains the title's pre-colon part); else the first hit |
| TitleLookup.Result | src/services/omdbApi.js:61-63 | the record returned is the found one, and null otherwise |
| TitleLookup.FetchDetail | src/services/omdbApi.js:84-87 | exactly one detail request; a record is found exactly when the reply arrives and is not Response "False"; a throw is reported |
| TitleLookup.TryVariant | src/services/omdbApi.js:54-65 | one variant: the search is issued; a detail request for the first hit follows exactly when there are hits and it has an id; Found exactly when that reply arrives and is not Response "False"; Threw exactly when the search or that request throws |
| TitleLookup.TryVariants | src/services/omdbApi.js:53-67 | the loop only appends requests, at most two per variant, stops once something is found or thrown, and a found record is the reply to its last request |
| TitleLookup.Lookup | src/services/omdbApi.js:34-95 | no request exactly when the title is blank; the first request searches the trimmed title; at most 7 requests; a returned record is the non-"False" reply to the last request |
| TitleLookup.FetchBest | src/services/omdbApi.js:80-90 | with verbatim hits: the search, then a detail request exactly when the ranked hit has an id, and for that id; Found exactly when the reply arrives and is not Response "False"; Threw exactly when it throws |
| TitleLookup.Tried | src/services/omdbApi.js:53-66 | the number of variants the loop reaches: the first one that finds or throws, or all of them |
| TitleLookup.OnePassSearches | src/services/omdbApi.js:54-56 | one pass of the loop searches exactly its own variant |
| TitleLookup.VariantsInOrder | src/services/omdbApi.js:53-67 | the variants searched are exactly the prefix up to the first one that finds or throws, in order, and the loop ends with that variant's outcome (nothing when none settles) |
| TitleLookup.VariantsSearched | src/services/omdbApi.js:53-67 | the searches of the variant loop are exactly the variants up to the first that settles, in order |
| TitleLookup.VariantsStatus | src/services/omdbApi.js:53-67 | the variant loop ends with the outcome of the first variant that settles, or with nothing found |
| TitleLookup.TryVariantsUnroll | src/services/omdbApi.js:53-67 | the loop from variant i is the pass for variant i followed by the loop from i + 1 |
| TitleLookup.VerbatimHitsSkipVariants | src/services/omdbApi.js:45-90 | with verbatim hits no variant is searched; only the ranked hit's details are fetched, and a failed fetch gives null without trying variants |
| TitleLookup.NoHitsTriesVariants | src/services/omdbApi.js:45-68 | without verbatim hits the searches are the cleaned title then the variants up to the first that settles, and the result is that variant's |
| TitleLookup.SearchThrowGivesNull | src/services/omdbApi.js:91-94 | a thrown verbatim search gives null after that single request |
| TitleLookup.GetMovieByTitle | src/services/omdbApi.js:34-95 | the code's control flow returns Lookup's result and issues Lookup's requests; a non-null result is never Response "False" |
| TitleLookup.SearchVariants | src/services/omdbApi.js:53-67 | the `for` loop with its early returns ends in the same state as the variant fold |
| TitleLookup.SearchVariant | src/services/omdbApi.js:54-65 | one pass of the loop body as written: it settles exactly when the variant finds a record or throws, and its record and requests are those of the pass |
| Strings.Trim | src/services/omdbApi.js:36-38 | `trim()`: empty exactly when the text is all whitespace; the result has no whitespace at either end |
| Strings.TrimTwice | src/services/omdbApi.js:48-50 | trimming an already trimmed variant changes nothing |
| Strings.CodeUnits | src/services/geminiApi.js:91 | `length` counts UTF-16 code units: between one and two per character, and one per character exactly when none lies outside the Basic Multilingual Plane |
| Strings.Lower | src/services/omdbApi.js:72 | `toLowerCase()` maps each character by itself and keeps the length |
| Strings.Upper | src/services/geminiApi.js:169 | `toUpperCase()` maps each character by itself and keeps the length |
| Strings.ContainsAt | src/services/omdbApi.js:76-77 | `includes` finds every occurrence |
| Strings.Contains | src/services/omdbApi.js:76-77 | `includes`: the empty text is contained everywhere, and a contained text is no longer than the text it is in |
| Strings.ContainsFound | src/services/geminiApi.js:172 | `includes` is true only where the text occurs |
| Strings.Before | src/services/omdbApi.js:50 | `split(c)[0]`: the prefix up to the first c, with no c in it |
| Strings.Split | src/services/geminiApi.js:78 | `split('\n')`: at least one piece, the first is the text before the first separator, and no piece holds the separator |
| Strings.JoinSplit | src/services/geminiApi.js:78 | splitting loses nothing: joining the pieces gives the text back |
| Util.Take | src/services/geminiApi.js:92 | `slice(0, n)`: a prefix of length min(n, length) |
| Util.FirstIndex | src/services/omdbApi.js:71-78 | `find`: the first element satisfying the test, or none when no element does |
| Util.Filter | src/services/geminiApi.js:91 | `filter`: keeps exactly the elements that pass |
| Util.FilterAppend | src/services/geminiApi.js:78-91 | filtering keeps the original order |
| Util.Flatten | src/services/geminiApi.js:90 | `flat()`: an element is in the result exactly when it is in one of the inner lists (order: FlattenAppend) |
| Util.FlattenAppend | src/services/geminiApi.js:90 | `flat()` keeps the order of the inner lists |
| Util.Map | src/services/geminiApi.js:80 | `map`: same length, each element mapped |
| Gemini.TitlesOf | src/services/geminiApi.js:72-73 | the parsed array keeps exactly the string elements with non-blank content |
| Gemini.TitlesOfAppend | src/services/geminiApi.js:73 | the kept strings stay in array order |
| Gemini.NonBlankLines | src/services/geminiApi.js:78 | the lines kept are exactly the non-blank lines of the text |
| Gemini.FallbackTitles | src/services/geminiApi.js:78-92 | the first min(8, n) of the n items longer than one UTF-16 code unit, extracted line by line from the non-blank lines in order and flattened; each comes from a non-blank line |
| Gemini.AstralItemKept | src/services/geminiApi.js:91 | an item made of one emoji is two code units long and passes `item.length > 1` |
| Gemini.FallbackLineOrder | src/services/geminiApi.js:79-90 | the items of earlier lines come before those of later lines |
| Gemini.Suggestions | src/services/geminiApi.js:10-105 | `[]` without a key, on a throw or without text; a parsed array gives its kept strings; another parsed value gives `[]`; an unparseable reply gives the fallback; no empty title is returned |
| Gemini.StripQuotes | src/services/geminiApi.js:135 | the text is one quote (if it starts with one), the result, and one quote (if it ends with one after that): exactly one quote at most goes from each end |
| Gemini.UnquotedUnique | src/services/geminiApi.js:135 | that description leaves one possible result |
| Gemini.QuotesAroundRemoved | src/services/geminiApi.js:135 | exactly one quote of either kind goes at each end, whatever lies between |
| Gemini.LoneQuoteRemoved | src/services/geminiApi.js:135 | a reply that is a single quote becomes empty |
| Gemini.Storyline | src/services/geminiApi.js:108-140 | null exactly without a key, on a throw or without text; otherwise the trimmed text less one leading and one trailing quote, where present |
| Gemini.FirstPhrase | src/services/geminiApi.js:173 | the fallback rating is the trimmed text before the first newline or '.', whichever comes first (the whole text when there is neither); it holds no newline and no '.' |
| Gemini.PhraseEndUnique | src/services/geminiApi.js:173 | only one position ends the first phrase, so the fallback rating is determined by the reply |
| Gemini.MatchRating | src/services/geminiApi.js:172-173 | the result is the first list entry contained in the cleaned reply; when none is contained, it is the first phrase |
| Gemini.NormalizeRating | src/services/geminiApi.js:169-173 | on the cleaned reply: the first entry of the list as written that it contains, none earlier being contained; its first phrase when it contains none |
| Gemini.CleanRating | src/services/geminiApi.js:169 | the cleaned reply is no longer than the reply and has no lower-case letter; a blank reply cleans to the empty text |
| Gemini.RDominates | src/services/geminiApi.js:171-172 | any reply containing R gives "R" |
| Gemini.CapitalRReadAsR | src/services/geminiApi.js:169-172 | a reply with a capital R and no space or quote at its ends is read as "R" |
| Gemini.FirstContained | src/services/geminiApi.js:172-173 | the entry chosen is the first one the cleaned reply contains |
| Gemini.UnlistedGivesFirstPhrase | src/services/geminiApi.js:173 | a reply containing no listed rating gives the text of the cleaned reply before its first newline or '.', trimmed |
| Gemini.AgeRestriction | src/services/geminiApi.js:142-178 | null exactly without a key, on a throw or without text; otherwise NormalizeRating of the reply text |
| Gemini.PlainIsClean | src/services/geminiApi.js:169 | an upper-case reply without surrounding whitespace or quotes is unchanged by cleaning |
| Gemini.CleanIsUpper | src/services/geminiApi.js:169 | a reply without whitespace or quotes at its ends is only upper-cased by cleaning |
| Gemini.UpperKeeps | src/services/geminiApi.js:169 | upper-casing keeps every character that is not a lower-case letter |
| Gemini.ContainsSelf | src/services/geminiApi.js:172 | a rating contains itself |
| Gemini.NotContainedLonger | src/services/geminiApi.js:172 | a longer entry, or an equally long different one, is not contained |
| Gemini.NotContainedChar | src/services/geminiApi.js:172 | a one-letter entry is not contained in a text without that letter |
| Gemini.NotRatedReadAsR | src/services/geminiApi.js:171-172 | "Not Rated" gives "R" (as written) |
| Gemini.TvPgReadAsPg | src/services/geminiApi.js:171-172 | "TV-PG" gives "PG" (as written) |
| Gemini.ThirdRatingRead | src/services/geminiApi.js:171-172 | a cleaned reply containing "PG" but neither "R" nor "PG-13" is read as "PG" |
| Gemini.RatingsStart | src/services/geminiApi.js:171 | the list starts "R", "PG-13", "PG" |
| Gemini.NormalizeRatingBySpecificity | src/services/geminiApi.js:171-173 | the same normalisation with entries tried longest first |
| Gemini.ListedRatingKept | src/services/geminiApi.js:171-172 | with that order, every listed rating given as the reply comes back as itself |
| Gemini.ListedIsPlain | src/services/geminiApi.js:171 | every listed rating is unchanged by cleaning |
| Gemini.SpecificFirst | src/services/geminiApi.js:171 | in the reordered list each entry is longer than every later one, or as long and different, so no later entry contains it |
| Gemini.SameRatings | src/services/geminiApi.js:171 | the reordered list holds every rating of the original |
| Auth.AuthStore.constructor | src/store/authStore.js:9-10 | the store starts logged out with no user |
| Auth.AuthStore.Login | src/store/authStore.js:11-13 | login always succeeds; the user holds the phone only |
| Auth.AuthStore.Logout | src/store/authStore.js:14-16 | logout resets both fields whatever the prior state, so a second logout changes nothing |
| Recommendations.Decimal | src/pages/Home.jsx:167 | the count in the partial-results message is written in digits only, without a leading zero, spelling the count |
| Recommendations.DecimalInjective | src/pages/Home.jsx:167 | different counts are written differently |
| Recommendations.PartialCountShown | src/pages/Home.jsx:166-168 | the partial-results message (Message) tells how many records came back: different counts give different texts |
| Recommendations.AddNew | src/pages/Home.jsx:135-139 | a record is appended only when its id is new; ids stay distinct and earlier records keep their places |
| Recommendations.Primary | src/pages/Home.jsx:133-134 | the lookup counts exactly when getMovieByTitle finds a record that is not Response "False", and then it is that record |
| Recommendations.TitleStep | src/pages/Home.jsx:132-157 | one title: a counting primary lookup adds its record unless the id is present (AddNew) and leaves the failed titles alone; a failed one appends the title once or twice; at most one record, ids distinct, records genuine, the lookup's requests first |
| Recommendations.AfterLookup | src/pages/Home.jsx:134-157 | a found record is added unless its id is present, after the lookup's requests; a miss appends the title (once or twice) and issues the keyword search of the trimmed title right after the lookup's requests |
| Recommendations.Retry | src/pages/Home.jsx:142-156 | a thrown search appends the title again; no hits change nothing; otherwise the first hit's details are requested without an id check: a throw appends the title again, a genuine record is added unless its id is present, a "False" reply changes nothing |
| Recommendations.Reconcile | src/pages/Home.jsx:131-158 | at most one record per title, ids distinct, records only appended (first-seen order), failed entries are titles of the loop, no record is Response "False"; what is kept: ReconcileKeepsResolved, ReconcileRecordsFailures |
| Recommendations.ReconcileKeepsResolved | src/pages/Home.jsx:133-139 | every title whose lookup counts has its record's id among the results |
| Recommendations.ReconcileRecordsFailures | src/pages/Home.jsx:140-141 | every title whose lookup does not count is among the failed titles |
| Recommendations.ReconcileUnroll | src/pages/Home.jsx:131-158 | the fold from title i is one title step followed by the fold from i + 1 |
| Recommendations.FailedTitleRule | src/pages/Home.jsx:140-141 | a failed lookup adds the title to failedTitles, even when the keyword search then supplies a record |
| Recommendations.FetchAll | src/pages/Home.jsx:174-182 | at most one detail request per hit; records are only appended, at most one per hit, none Response "False"; a throw ends the loop (contents: FetchAllKeepsDetails) |
| Recommendations.Details | src/pages/Home.jsx:174-182 | the reference list: the genuine details of the hits that have an id, in hit order; at most one per hit |
| Recommendations.FetchAllKeepsDetails | src/pages/Home.jsx:174-182 | the loop throws exactly when some hit's detail request throws, and otherwise keeps exactly Details of the hits, in order |
| Recommendations.FetchOne | src/pages/Home.jsx:176-180 | a hit without an id changes nothing; a hit with one issues exactly one detail request for it, appends the reply when it is not Response "False", and a throw is recorded with nothing added |
| Recommendations.FetchAllRequestsHits | src/pages/Home.jsx:174-182 | every request the loop issues is a detail request for the id of one of the hits |
| Recommendations.KeywordFallback | src/pages/Home.jsx:172-198 | the prompt is searched; a throw gives the failure message and no records; no hits give the no-hits message; otherwise, without a throw, the records are Details of the first six hits and the message is set exactly when there are none; at most 7 requests of its own |
| Recommendations.PartialNotice | src/pages/Home.jsx:161-169 | the partial-results message, with the count, is set exactly when some title failed and fewer than 3 records came back |
| Recommendations.Recommend | src/pages/Home.jsx:89-207 | the suggestion request comes first; at most 10 records, none Response "False"; no message only when there are records |
| Recommendations.FromTitles | src/pages/Home.jsx:127-199 | after suggestions the row holds at most 10 records and has a message whenever it is empty |
| Recommendations.ResultsOrFallback | src/pages/Home.jsx:161-198 | with results the row shows them; without, the prompt is searched right after the title requests; at most 10 genuine records and a message whenever the row is empty |
| Recommendations.ResolvedTitlesShown | src/pages/Home.jsx:128-169 | when titles resolve, the row shows them: at most min(10, suggestions), distinct ids, message exactly when a title failed and there are fewer than 3 |
| Recommendations.NoSuggestionsSearchesPrompt | src/pages/Home.jsx:97-124 | with no suggestions the prompt is searched next; at most 6 records; any message is the "for this query" one or the failure one |
| Recommendations.NothingResolvedSearchesPrompt | src/pages/Home.jsx:170-198 | when nothing resolves the prompt is searched after the title requests; at most 6 records; the "No movies found." message exactly when that search is empty; the "in database" one only when it had hits |
| Recommendations.RecommendAfterLoop | src/pages/Home.jsx:127-199 | with suggestions the outcome is ResultsOrFallback of the state the title loop ends in |
| Recommendations.EmptyLoopFallback | src/pages/Home.jsx:170-198 | a loop that resolved nothing falls back to the prompt search right after its requests, with the two messages as above |
| Recommendations.PromptFallback | src/pages/Home.jsx:172-198 | the fallback with the "in database" and "No movies found." messages: the search comes first, at most 6 records, and the messages tell the two cases apart |
| Recommendations.ProcessTitle | src/pages/Home.jsx:132-157 | the loop body as written equals TitleStep |
| Recommendations.ContinueTitle | src/pages/Home.jsx:134-157 | the rest of the loop body as written, after the primary lookup, equals AfterLookup |
| Recommendations.ReconcileTitles | src/pages/Home.jsx:131-158 | the loop over `slice(0, 10)` equals the Reconcile fold |
| Recommendations.FetchFallbackDetails | src/pages/Home.jsx:174-182 | the loop over `slice(0, 6)` equals the FetchAll fold |
| Recommendations.SearchPrompt | src/pages/Home.jsx:172-198 | the fallback as written equals KeywordFallback |
| Recommendations.FetchRecommendations | src/pages/Home.jsx:93-207 | the whole flow as written equals Recommend |
| Home.MoviePath | src/pages/Home.jsx:61 | `/movie/${imdbID}` ends with the id |
| Home.HomePage.constructor | src/pages/Home.jsx:25-29 | initial page state: empty AI row, no prompt or input, modal closed, no pending movie |
| Home.HomePage.HandleMovieClick | src/pages/Home.jsx:54-64 | logged out: the movie waits and the modal opens, with no navigation; logged in: navigate to the movie (handleSearchSelect, lines 74-84, has the same body) |
| Home.HomePage.HandleLoginSuccess | src/pages/Home.jsx:66-72 | navigate to the waiting movie if any, clear it, close the modal |
| Home.HomePage.CloseLoginModal | src/pages/Home.jsx:298-302 | closing the modal drops the waiting movie |
| Home.HomePage.OpenLoginModal | src/pages/Home.jsx:227 | the navbar's `onOpenLogin` opens the modal and changes nothing else |
| Home.HomePage.SubmitLogin | src/components/LoginModal.jsx:21-29 | a blank phone or empty password changes nothing; otherwise log in with the trimmed phone, then navigate to the waiting movie and close |
| Home.HomePage.FetchAiRecommendations | src/pages/Home.jsx:86-210 | a blank input changes no state and issues no request; otherwise the prompt is the trimmed input, the row holds Recommend's records and message, not loading, and the input is cleared |
| Home.HomePage.ShowRecommendations | src/pages/Home.jsx:89-207 | the row, prompt and request log after the recommendation flow; a waiting movie implies an open modal, and the row holds at most 10 genuine records |

## Left out

- HTTP, API keys and logging. The axios requests are the `search`, `detail` and `suggest` oracles plus the `Call` replies given to the Gemini functions. Whether an API key is set is the `hasKey` flag. Console output has no behaviour.
- The `page` parameter of searchMovies and fetchMoviesByKeyword is not modelled. The search oracle takes the query only.
- Gemini.Suggestions: the cleanup regexes and `JSON.parse` (geminiApi.js:56-71) are the `parse` oracle on the reply text. The per-line quoted-string and word regexes (lines 82-88) are the `lineItems` oracle. Both rely on a JSON parser and a regular-expression engine that are not part of this model.
- Recommendations.Recommend: `suggest` stands for the whole of getAIMovieSuggestions, which never throws. Its post-processing is Gemini.Suggestions, and the two are not composed.
- Strings.Lower: only ASCII letters change case. JavaScript maps all of Unicode.
- Strings.Upper: only ASCII letters change case. JavaScript maps all of Unicode.
- TitleLookup.Lookup assumes every hit has a `Title`. A hit without one makes `toLowerCase` throw, and the catch turns that into null. That case is not represented.
- TitleLookup.Lookup takes the title as a string, so a null or undefined title (`!title`) is not represented.
- Omdb.SearchResults: a `Search` field that is present but not an array is not represented.
- Reply records keep only `imdbID`, `Title` and `Response`. The display fields have no behaviour.
- Home.HomePage.HandleMovieClick keeps only the clicked movie's id as the pending movie. The page never reads more of it.
- Home.HomePage.FetchAiRecommendations: the intermediate loading row is set and then overwritten within one call. React batching is not modelled, nor is a second request started while one is in flight. The row keeps no title field (a constant).
- The initial row loading and hero fetch (Home.jsx:38-52) are not modelled. Neither are scrolling, rendering, routing, the movie detail page, the search bar debounce or the persisted storage of the auth store (localStorage). These are I/O, timing or display.
- Recommendations.Message: only the partial-results texts are proved to differ from one another (PartialCountShown); the four fixed texts are distinct literals, and comparing long literals is costly for the solver.

## Findings

| source | as written | input that shows it | evidently intended | confidence | as-written member | corrected member |
|---|---|---|---|---|---|---|
| src/services/geminiApi.js:171-172 | the rating list starts with "R" and has "PG" before "TV-PG", and the first contained entry wins | "Not Rated" (the answer the prompt asks for when unknown) gives "R"; "TV-PG" gives "PG"; so "NOT RATED" and "TV-PG" can never be returned | each listed rating, given as the answer, comes back as itself: try longer entries before the shorter ones they contain | medium, not executed | Gemini.NotRatedReadAsR | Gemini.ListedRatingKept |

Gemini.AgeRestriction keeps the list order as written. Gemini.NormalizeRatingBySpecificity is the reordered normalisation.
