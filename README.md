# CineNest catalog, recommendation and listing logic in Dafny

CineNest is a streaming catalog site. This project models its item-retrieval core and proves properties of the model.

The backend (`Recommender` in `backend/ml/recommender.py`) does three things:

- It loads a primary movie table and a supplementary table of new titles.
- It maps the new records into the primary schema and appends them.
- It coerces the numeric columns and answers two kinds of query:
  - "more like this" recommendations from a similarity matrix;
  - three curated buckets: trending now, top rated and new on Netflix.

Two other backend pieces are modelled:

- `merge_data.py` folds the same new records into the stored table.
- The AI route scrubs provider names from replies. It also decides when a search query is long enough to ask a language model for a structured intent, and cleans that model's reply.

The front end filters, sorts, deduplicates and pages the same catalog in several places:

- the analytics dashboard (`UserAnalytics.js`);
- the trending grid (`TrendingMovies.js`);
- the admin movie analytics, content library, ratings and users pages;
- the home page, which overlays hand-picked titles on the curated API lists and chooses backdrops;
- the recommendation page, which guards the search and pages the results.

## Conventions

- **Ratings and numbers.** Ratings are integers in tenths: 7.5 is `75`. Years, platform flags and collections are whole numbers.
- **Python fields.** Absent, `None` and text of any kind stay distinct values (`Catalog.Field`, `MergeData.Field`).
- **JavaScript values.** After `JSON.parse` these are `Js.Value`: `undefined`, `null`, `NaN`, a boolean, a number, a string or a list. Truthiness, `parseInt` and `parseFloat` are written out over that type.
- **Similarity.** The similarity matrix is a score function on catalog positions, together with its size. The loader builds it from a pair-scoring function that is passed in.
- **White space.** `split()`, `strip()`, `trim()` and `\s` use each language's own set of white-space characters (`Common.IsSpace`). Python's set adds U+001C-U+001F and U+0085, and JavaScript's adds U+FEFF.
- **Sorting.** Sorting is the stable insertion sort `Seqs.SortBy`, keyed by a lexicographic integer vector (`Rank`). Ties therefore keep input order. Python's `sorted` is stable in the same way.
- **Style.** Where the source changes state step by step, the model is imperative:
  - classes with fields and `modifies` clauses: `Recommender`, `ContentPage`, `Dashboard`, `RecommendPage`, `UsersPage`;
  - loops with invariants: the recommendation loop, `format_list`, `sanitize_response`, the merge loops and the dedup;
  - an array sorted in place: the content library.

  Each method is proved equal to a specification function. The lemmas about that function state what the source promises.

## Where the code and its description differ

The model follows the code in each case below.

- **Default genre.** Supplementary titles get the genre "Drama" (`recommender.py:49`). "Unknown" is only the director and country default.
- **Malformed records.** A supplementary record whose `type` is `null` or a number makes `.lower()` raise (`recommender.py:47`). The `except` at lines 109-111 then leaves the catalog empty, so one malformed record does abort the load. The same happens when a column read at lines 74-94 is missing from every row.
- **Similarity matrix.** It is a dense matrix, built once at load time (`recommender.py:106`), not computed on demand.
- **Trailer links.** `handlePlay` rewrites only the first `watch?v=` in a trailer link, because JavaScript's `String.replace` with a string pattern replaces one occurrence (`index.js:27,33`).
- **IMDb lower bound.** The curated "top rated" bucket keeps IMDb `>= 8.5` (`recommender.py:169`), although its comment says `> 8.5`.
- **Genre vectorisation.** The loader one-hot encodes the Genres column and normalises it (`recommender.py:75-76`). If no row has a genre tag (every Genres cell empty, missing or only commas), there are no columns and normalising raises. If every Genres cell is a number, `.str` raises. Either way the `except` at lines 109-111 leaves the catalog empty (`Catalog.VectorisationFails`).
- **AI search.** `ai.py:11` imports `search_movies_with_ai` from `ml.recommender`, and `ai.py:179` calls it, but `ml/recommender.py` defines no such function. Importing the route module therefore raises `ImportError`, and so does `main.py:11`, which imports it at start-up. The model covers the intent step only.
- **Names left after scrubbing.** `sanitize_response` is described as removing any mention of an AI provider (`ai.py:66`). It replaces only each name as written and its lowercase form, so "GEMINI", "Llama" and "OpenAI" pass through unchanged (`AiRoutes.UppercaseSurvives` shows the first). The two forms it does replace never survive, whatever the surrounding text (`AiRoutes.NamesGone`).

## Model

| member | source | states |
|---|---|---|
| Catalog.Get | backend/ml/recommender.py:45-46 | `item.get(key)` gives `None` for an absent key and the stored value otherwise |
| Catalog.PlatformFlag | backend/ml/recommender.py:54-57 | a platform column is 1 exactly when the record's `platform` is that name, and 0 otherwise |
| Catalog.NormalizeNew | backend/ml/recommender.py:44-59 | a record with a `null` or numeric type fails (`.lower()` raises); otherwise the row copies the title and year, lowercases the type (default "movie") and uses IMDb 0 when absent; it also sets Genres "Drama" and Directors "Unknown", and the four platform columns are one-hot on `platform` |
| Catalog.NormalizeAll | backend/ml/recommender.py:42-60 | succeeds iff every record normalises; then has one row per record, in order |
| RecommenderEngine.NormalizeRecords | backend/ml/recommender.py:42-60 | the append loop computes exactly `NormalizeAll` |
| Catalog.ParseTenths | backend/ml/recommender.py:80 | a rating text of digits, or digits, a dot and digits, reads in tenths with the first decimal kept; anything else is not a number; a value read is never negative |
| Catalog.ParseWhole | backend/ml/recommender.py:94 | a year text is a number exactly when it is a non-empty string of digits |
| Catalog.DigitsOfNat | backend/ml/recommender.py:94 | a whole number written in decimal is all digits, and the digits read back as the number |
| Catalog.ParseWholeRoundTrip | backend/ml/recommender.py:94 | a year written in decimal reads back as that year |
| Catalog.ParseTenthsRoundTrip | backend/ml/recommender.py:80 | a rating written as w reads as 10w tenths, and one written w.d followed by more digits reads as 10w + d |
| Catalog.RatingValue | backend/ml/recommender.py:80 | `to_numeric(errors='coerce').fillna(0)` keeps a number and turns a missing value, `None` or non-numeric text into 0 |
| Catalog.WholeValue | backend/ml/recommender.py:85-94 | the same coercion for Year and the platform columns; an absent platform column reads as 0 |
| Catalog.GenresText | backend/ml/recommender.py:74 | `Genres.fillna('')` as `str` reads it: text is kept, a missing or null cell is "", a number keeps its decimal notation |
| Catalog.Coerce | backend/ml/recommender.py:74-94 | a catalog row keeps title, type and directors, and takes genres, IMDb, year and each platform flag through the coercions |
| Catalog.CoerceAll | backend/ml/recommender.py:74-94 | coercion is row by row and keeps the index space |
| RecommenderEngine.CoerceRows | backend/ml/recommender.py:74-94 | the numeric coercion that the source applies column by column, done here one row at a time, yields exactly `CoerceAll` of the combined rows |
| Catalog.SupplementaryRows | backend/ml/recommender.py:36-63 | a missing supplementary file contributes no rows, an unreadable one fails the load, a readable one is normalised |
| Catalog.LoadCatalog | backend/ml/recommender.py:24-111 | the catalog is non-empty exactly when the primary file is readable, the supplementary table does not fail, the combined rows are non-empty, no column is missing from every row and the genres can be vectorised; a non-empty catalog row k is the coercion of row k of primary followed by supplementary |
| Catalog.ConcatenationOrder | backend/ml/recommender.py:66 | the catalog is the primary rows followed by the normalised supplementary rows, and its length is the sum of the two |
| Catalog.NewRowDefaults | backend/ml/recommender.py:43-60 | a supplementary row has genre "Drama" and director "Unknown", at most one platform flag, and exactly one iff its platform is one of the four |
| Catalog.NonNumericBecomesZero | backend/ml/recommender.py:80-94 | non-numeric or missing IMDb and Year become 0, and a missing platform column reads as 0 |
| Catalog.RatingExamples | backend/ml/recommender.py:80 | "8.5" reads as 85 tenths and "7" as 70 |
| Catalog.UnratedExample | backend/ml/recommender.py:80 | "N/A" reads as 0 |
| Catalog.YearExample | backend/ml/recommender.py:94 | "2024" reads as 2024 |
| RecommenderEngine.SimilarityOf | backend/ml/recommender.py:106 | the matrix has one row and column per catalog row, and entry (i, j) scores rows i and j |
| RecommenderEngine.SimilaritySymmetric | backend/ml/recommender.py:106 | a symmetric pair score gives a symmetric matrix |
| RecommenderEngine.Recommender.constructor | backend/ml/recommender.py:8-11 | a new engine holds `LoadCatalog` of the two sources, with a matrix exactly when that catalog is non-empty |
| RecommenderEngine.Recommender.LoadData | backend/ml/recommender.py:13-111 | the catalog field becomes `LoadCatalog` of the two sources; a non-empty catalog gets a fresh matrix aligned with it; an empty one leaves the matrix as it was |
| Ranking.FirstIndex | backend/ml/recommender.py:119-129 | the first row satisfying the test, with no earlier row satisfying it, or none when no row does |
| Ranking.MatchIndex | backend/ml/recommender.py:118-129 | the chosen row is a catalog position |
| Ranking.MatchPrecedence | backend/ml/recommender.py:118-129 | an exact case-insensitive match beats a substring match, and the first match in catalog order is used; when there is no exact match, a row is found iff some title contains the query |
| Ranking.ExactIsSubstring | backend/ml/recommender.py:119-123 | an exact match is also a substring match, so the fallback never finds fewer rows |
| Ranking.Ranked | backend/ml/recommender.py:132-135 | the ranking is a permutation of all catalog positions, ordered by descending score against the query row |
| Ranking.TopIndices | backend/ml/recommender.py:137-141 | the kept positions never include the query row and number at most `limit` (none when `limit <= 0`) |
| Ranking.CandidatesOrdered | backend/ml/recommender.py:135-141 | the candidates exclude the query row, have non-increasing scores, and tied scores keep catalog order because `sorted` is stable |
| Ranking.CandidatesAreTop | backend/ml/recommender.py:135-141 | a catalog row left out (other than the query row) means exactly `limit` were taken, all scoring at least as high as it |
| Ranking.CandidatesShorter | backend/ml/recommender.py:139-141 | the query row is always dropped, so fewer candidates than catalog rows |
| Ranking.PlatformLabel | backend/ml/recommender.py:145-149 | the label is "None" exactly when no platform flag is 1 |
| Ranking.AvailablePlatforms | backend/ml/recommender.py:145 | a platform is listed iff its flag is 1 |
| Ranking.RecommendationFor | backend/ml/recommender.py:147-153 | a result carries the row's title, rating, year, platform label and its score |
| Ranking.RecommendationsFor | backend/ml/recommender.py:139-153 | one result per candidate position, in candidate order |
| Ranking.Recommend | backend/ml/recommender.py:113-155 | empty for an empty catalog, a missing matrix, no matching title or `limit <= 0`; otherwise exactly the top recommendations for the matched row, at most `limit` and fewer than the catalog rows |
| Ranking.TopRecommendations | backend/ml/recommender.py:132-153 | one recommendation per candidate, each for a catalog row other than the query row with that row's score; the scores never increase; a row left out, other than the query row, scores no higher than any returned |
| RecommenderEngine.CollectTop | backend/ml/recommender.py:138-155 | the loop with `continue` and `break` yields exactly the recommendations for the candidates |
| RecommenderEngine.Recommender.GetRecommendations | backend/ml/recommender.py:113-155 | the method returns exactly `Recommend` on the loaded catalog and matrix |
| Curation.BucketIsTop | backend/ml/recommender.py:162-176 | a bucket holds min(10, qualifying) rows, all qualifying and in non-increasing key order; a qualifying row left out ranks no higher than any bucket row; no row appears more often than it qualifies (a sub-multiset of the qualifying rows) |
| Curation.Split | backend/ml/recommender.py:187 | `str.split(',')` yields at least one part, none containing the separator |
| Curation.SplitJoin | backend/ml/recommender.py:187 | joining the parts back with the separator gives the original text |
| Curation.FieldText | backend/ml/recommender.py:188 | `str(row.get('Directors', ''))`: the text itself, "None" for `None`, the number's digits, "nan" for a missing cell when the column exists and "" when no row has one |
| Curation.FormatRow | backend/ml/recommender.py:181-189 | a curated item carries the row's title, year, rating, listed platforms, split genres and directors text, the last depending on whether the catalog has a Directors column |
| Curation.FormatList | backend/ml/recommender.py:178-190 | the loop formats every row, in order |
| Curation.FormatAll | backend/ml/recommender.py:178-190 | one formatted item per row, in order |
| Curation.CuratedContent | backend/ml/recommender.py:157-196 | an empty catalog yields `{}` and only then |
| Curation.CuratedThresholds | backend/ml/recommender.py:162-196 | trending rows have Year >= 2024 and IMDb >= 7.5, top-rated rows IMDb >= 8.5; Netflix rows have Netflix, Year >= 2022 and IMDb >= 7.0; each bucket holds at most 10 rows, sorted by IMDb (trending, top rated) or Year (Netflix) descending |
| Curation.TrendingFacts | backend/ml/recommender.py:163-166 | the trending bucket: at most 10 items, year >= 2024, rating >= 7.5, rating descending |
| Curation.TopRatedFacts | backend/ml/recommender.py:169 | the top-rated bucket: at most 10 items, rating >= 8.5, rating descending |
| Curation.NetflixFacts | backend/ml/recommender.py:172-176 | the Netflix bucket: at most 10 items on Netflix, year >= 2022, rating >= 7.0, year descending |
| RecommenderEngine.Recommender.GetCuratedContent | backend/ml/recommender.py:157-196 | the method returns exactly `CuratedContent` of the loaded catalog |
| MergeData.GetKey | merge_data.py:40-49 | `item.get(key)` is the stored value, or `None` when absent |
| MergeData.PyStr | merge_data.py:49 | `str()` keeps text, renders `None` as "None", a number as its decimal digits and an absent key's default as "" |
| MergeData.LowerOfPyStr | merge_data.py:49 | lowercasing `str(None)` gives "none" and lowercasing a number's digits leaves them unchanged |
| MergeData.Flag | merge_data.py:45-48 | a platform flag is 1 exactly when `platform` equals that name, otherwise 0 |
| MergeData.TypeText | merge_data.py:49 | Type is "" when `type` is absent, the lowercased text when it is a string, "none" when it is null and the number's digits when it is a number |
| MergeData.TransformSchema | merge_data.py:39-55 | every transformed record has exactly the fifteen columns of the stored schema |
| MergeData.TransformCopies | merge_data.py:40-49 | Title, Year and IMDb are copied from `title`, `year` and `imdb_rating`, and Type is the lowercased string form |
| MergeData.TransformClears | merge_data.py:42-54 | Age, Rotten Tomatoes, Directors, Genres, Country, Language and Runtime are `None` |
| MergeData.TransformFlags | merge_data.py:45-48 | each platform column holds that platform's flag |
| MergeData.AtMostOneFlag | merge_data.py:45-48 | at most one platform flag is set, the one named by `platform` |
| MergeData.TransformAll | merge_data.py:37-56 | one transformed record per new record, in order |
| MergeData.TransformEach | merge_data.py:37-56 | the append loop computes exactly `TransformAll` |
| MergeData.MergeOutcome | merge_data.py:10-65 | an unreadable existing file, or a missing or unreadable new-data file, writes nothing; a write happens only when the new data was read |
| MergeData.MergeKeepsExisting | merge_data.py:58-60 | the written table is the existing records unchanged followed by the transformed ones, its length the sum of the two |
| MergeData.Merge | merge_data.py:10-65 | the procedure's outcome is exactly `MergeOutcome` |
| AiRoutes.ApplyAllCons | backend/routes/ai.py:76-78 | the replacements are applied pair by pair, in order |
| AiRoutes.Sanitize | backend/routes/ai.py:65-79 | the loop replaces each name, then its lowercase form, for every pair in order, and neither form of any name is left in the reply |
| AiRoutes.UnchangedWithoutNames | backend/routes/ai.py:65-79 | a text with none of the names, in written or lowercase form, comes back unchanged |
| AiRoutes.NamesGone | backend/routes/ai.py:65-79 | when no label can overlap either form of any name, applying the pairs leaves neither form of any name, whatever the text around it |
| AiRoutes.ReplacementsApart | backend/routes/ai.py:67-75 | the route's labels cannot overlap any provider name in either form |
| AiRoutes.NameApart | backend/routes/ai.py:67-75 | both forms of each provider name are apart from every label |
| Common.ReplaceAllAvoids | backend/routes/ai.py:77-78 | `str.replace` with a label apart from q leaves no q, if there was none before or q is the pattern itself |
| Common.SpliceAvoids | backend/routes/ai.py:77-78 | a label apart from q placed between two texts without q creates no q |
| Common.ReplaceAllSplit | backend/routes/ai.py:77-78 | `str.replace` copies the text up to the first occurrence, puts the label there and goes on after it |
| Common.FirstOccurrence | backend/routes/ai.py:77-78 | a text containing the pattern has a first occurrence |
| Common.ApartByPairs | backend/routes/ai.py:67-75 | two strings whose first two characters never line up across an overlap cannot overlap |
| AiRoutes.NamesNonEmpty | backend/routes/ai.py:67-75 | no provider name is empty, so every replacement is well defined |
| AiRoutes.GoogleBecomesCore | backend/routes/ai.py:68-78 | "Google" and "google" both become "Core" |
| AiRoutes.CoreHasNoOtherName | backend/routes/ai.py:68-75 | the label "Core" contains none of the later names, so later pairs leave it alone |
| AiRoutes.UppercaseSurvives | backend/routes/ai.py:76-78 | replacement is case-sensitive apart from the two forms: "GEMINI" survives |
| AiRoutes.NameNotInUppercase | backend/routes/ai.py:67-78 | no name, written or lowercase, occurs in "GEMINI" |
| AiRoutes.CleanReply | backend/routes/ai.py:172 | no code-fence marker is left in the cleaned reply |
| AiRoutes.NoFenceLeft | backend/routes/ai.py:172 | deleting every "```" leaves no "```", even where deletions bring backticks together |
| AiRoutes.TicksAfterRemoval | backend/routes/ai.py:172 | deleting the fences shortens the leading stretch of backticks to its length mod 3 |
| AiRoutes.TicksOfFence | backend/routes/ai.py:172 | a leading fence contributes three backticks |
| AiRoutes.TicksBelowThree | backend/routes/ai.py:172 | text not starting with a fence starts with fewer than three backticks |
| AiRoutes.ConsNoFence | backend/routes/ai.py:172 | a character in front of fence-free text makes no fence unless it completes three backticks |
| AiRoutes.SearchIntent | backend/routes/ai.py:154-176 | a query of at most two words has no intent, and a failed model call has no intent; otherwise the intent is the parse of the cleaned reply, where a failed parse gives none |
| AiRoutes.WordThenRest | backend/routes/ai.py:156 | a word followed by whitespace or nothing counts once in `q.split()` |
| AiRoutes.JoinedWordCount | backend/routes/ai.py:156 | words joined by spaces count as that many words, and the intent is attempted iff there are more than two |
| UserAnalytics.ParsedYear | frontend/components/UserAnalytics.js:127 | `parseInt` keeps a number, reads the leading numeral of text, and gives `NaN` for a missing or null year |
| UserAnalytics.ParsedYearReadsPrefix | frontend/components/UserAnalytics.js:127 | white space, digits and text not starting with a digit read as those digits, so "2020.0" and " 2020" are 2020 |
| UserAnalytics.TextOr | frontend/components/UserAnalytics.js:133 | the fallback to '' keeps text and gives "" otherwise |
| UserAnalytics.Rating | frontend/components/UserAnalytics.js:130 | `parseFloat` with the fallback to 0: a number is kept, text reads its leading numeral or 0, a missing or null rating is 0 |
| UserAnalytics.PlatformField | frontend/components/UserAnalytics.js:144 | only the four platform names index a platform column |
| UserAnalytics.FilteredData | frontend/components/UserAnalytics.js:122-149 | the filtered items are the data items that pass every filter, in data order |
| UserAnalytics.FilterIsConjunction | frontend/components/UserAnalytics.js:125-148 | an item passes iff year, inclusive rating range, type (with the series choice) and platform filters all hold |
| UserAnalytics.UnparsableRatingIsZero | frontend/components/UserAnalytics.js:130-131 | an unparsable or missing rating is judged as 0 |
| UserAnalytics.SeriesChoice | frontend/components/UserAnalytics.js:136-137 | "series/tv show" accepts exactly series, tv show and tv-show |
| UserAnalytics.UnparsableYearKeepsNothing | frontend/components/UserAnalytics.js:126-128 | a year filter that does not parse (`NaN !== NaN`) keeps nothing |
| UserAnalytics.DefaultFiltersKeepRated | frontend/components/UserAnalytics.js:17-22 | the initial filters keep exactly the items rated 0 to 10 |
| UserAnalytics.YearsOf | frontend/components/UserAnalytics.js:116 | the year of every item, in order |
| UserAnalytics.AvailableYears | frontend/components/UserAnalytics.js:115-119 | the year options are exactly the truthy years present (non-zero numbers and non-empty strings), none twice, in non-increasing order of the number `b - a` reads (`Number()` of a text year) |
| UserAnalytics.YearOptionsOrdered | frontend/components/UserAnalytics.js:116-118 | filter, set and sort keep every truthy year once, in non-increasing order of `YearNumber`, the value `Number()` gives a year |
| UserAnalytics.YearNumber | frontend/components/UserAnalytics.js:117 | the number `b - a` subtracts: a numeric year itself, a text year as `Number()` reads it whole, 0 otherwise |
| UserAnalytics.TableData | frontend/components/UserAnalytics.js:152-164 | the rows are the filtered items, in order, whose title contains the term case-insensitively; an empty term returns the list unchanged |
| UserAnalytics.PageRows | frontend/components/UserAnalytics.js:166-169 | a page holds at most 10 rows, starting at (page-1)*10, and a full page when enough rows remain |
| UserAnalytics.TotalPages | frontend/components/UserAnalytics.js:171 | the page total is ceil(len/10) |
| UserAnalytics.PositiveRatings | frontend/components/UserAnalytics.js:180 | only ratings > 0 are kept |
| Common.Max | frontend/components/UserAnalytics.js:182 | the maximum is one of the ratings and no rating exceeds it |
| Common.Min | frontend/components/UserAnalytics.js:183 | the minimum is one of the ratings and no rating is below it |
| UserAnalytics.KpisOf | frontend/components/UserAnalytics.js:175-186 | the movie and series counts are the matching filtered items and sum to at most the total; with no positive rating, average, maximum and minimum are 0; otherwise the maximum and minimum are actual positive ratings bounding all of them, and the average lies between and is `RoundedMean` of the ratings, the mean to the nearest tenth |
| UserAnalytics.BandOf | frontend/components/UserAnalytics.js:214-220 | every rating falls in exactly one of the six bands, with the source's bounds |
| UserAnalytics.ImdbChartData | frontend/components/UserAnalytics.js:211-223 | six bars, one per band in order, counting that band's items; the counts sum to the number of filtered items |
| UserAnalytics.BandsCoverAll | frontend/components/UserAnalytics.js:211-223 | the six band counts sum to the number of items |
| UserAnalytics.PlatformCount | frontend/components/UserAnalytics.js:206 | a platform count never exceeds the rows |
| UserAnalytics.PlatformChartData | frontend/components/UserAnalytics.js:201-209 | one bar per platform in the listed order, each counting the items on it |
| UserAnalytics.PlatformCountMatchesFilter | frontend/components/UserAnalytics.js:201-209 | a platform's bar equals the number of items the platform filter would keep |
| UserAnalytics.Dashboard.constructor | frontend/components/UserAnalytics.js:17-26 | the dashboard starts with the default filters, an empty search and page 1 |
| UserAnalytics.Dashboard.Visible | frontend/components/UserAnalytics.js:166-169 | the visible rows never exceed one page |
| UserAnalytics.Dashboard.SetSearchTerm | frontend/components/UserAnalytics.js:566 | typing a search term sets it and returns to page 1 |
| UserAnalytics.Dashboard.SetFilters | frontend/components/UserAnalytics.js:245-378 | changing the filters leaves search and page alone |
| UserAnalytics.Dashboard.PrevPage | frontend/components/UserAnalytics.js:624-630 | Previous moves back one page but never below 1 |
| UserAnalytics.Dashboard.NextPage | frontend/components/UserAnalytics.js:634-640 | Next moves forward one page but never past the total, so the page stays within [1, totalPages] |
| TrendingMovies.Toggle | frontend/components/TrendingMovies.js:18-26 | a present value is removed (every occurrence, nothing else), an absent one appended |
| TrendingMovies.ToggleTwice | frontend/components/TrendingMovies.js:18-26 | toggling an absent value twice restores the list |
| TrendingMovies.ToggleFilter | frontend/components/TrendingMovies.js:18-26 | only the named facet changes |
| TrendingMovies.FilteredMovies | frontend/components/TrendingMovies.js:28-54 | the result is a reordering of the matching movies, and a movie is shown iff it matches every active facet; results are ordered by rating and then collection, both descending, missing values as 0 |
| TrendingMovies.NoFacetsKeepAll | frontend/components/TrendingMovies.js:29-42 | empty facets and year "All" keep every movie |
| TrendingMovies.YearChoice | frontend/components/TrendingMovies.js:31 | a chosen year admits only movies of that year |
| TrendingMovies.Cards | frontend/components/TrendingMovies.js:161 | at most 100 cards, the first results in order |
| TrendingMovies.Upcoming2026 | frontend/components/TrendingMovies.js:56-58 | the first min(8, n) of the n movies from 2026 with status "upcoming", in data order |
| MoviesAnalytics.CleanTitle | frontend/pages/admin/movies-analytics.js:13-17 | a null or empty title gives ""; a title ending in whitespace and one digit loses those two characters; any other title is unchanged |
| MoviesAnalytics.CleanTitleExamples | frontend/pages/admin/movies-analytics.js:16 | "Movie 12" is unchanged, "Movie 2" becomes "Movie" and "Movie 1 2" becomes "Movie 1" |
| MoviesAnalytics.FilteredData | frontend/pages/admin/movies-analytics.js:38-47 | the result is a subsequence of the data holding exactly the movies every chosen filter admits |
| MoviesAnalytics.AllChoicesKeepAll | frontend/pages/admin/movies-analytics.js:38-47 | "All" everywhere keeps the data unchanged |
| MoviesAnalytics.SortedData | frontend/pages/admin/movies-analytics.js:50-71 | the sorted copy is a permutation of the filtered data, ordered by the chosen column (nulls as -1) in the chosen direction |
| MoviesAnalytics.InitialSortByRating | frontend/pages/admin/movies-analytics.js:28-71 | the initial sort puts ratings in descending order, nulls last as -1 |
| MoviesAnalytics.RequestSort | frontend/pages/admin/movies-analytics.js:73-79 | the key becomes the requested one, and the direction is ascending iff the same key was already descending |
| MoviesAnalytics.RequestSortCycle | frontend/pages/admin/movies-analytics.js:73-79 | requesting the same key twice from descending returns to descending |
| MoviesAnalytics.Deduplicate | frontend/pages/admin/movies-analytics.js:82-90 | the loop with its `seen` set keeps exactly the first movie of each cleaned title |
| MoviesAnalytics.DeduplicateKeepsFirst | frontend/pages/admin/movies-analytics.js:82-90 | the output keeps order, no two rows share a cleaned title, and every title survives; a movie is kept iff it is the first with its title |
| MoviesAnalytics.ReleasedRatings | frontend/pages/admin/movies-analytics.js:98 | one rating per released, rated movie |
| MoviesAnalytics.Average | frontend/pages/admin/movies-analytics.js:99-101 | no ratings give "N/A"; otherwise the average lies between the least and greatest rating and is `RoundedMean` of their sum and count |
| MoviesAnalytics.KpisOf | frontend/pages/admin/movies-analytics.js:93-108 | the total is the filtered count, the released and upcoming counts never exceed it together; the average is "N/A" iff no released movie is rated, and otherwise lies within the released ratings and is their mean to the nearest tenth; the collection total sums the released collections |
| MoviesAnalytics.NoRatedReleaseIffEmpty | frontend/pages/admin/movies-analytics.js:98-101 | no rated release exists iff the filtered list of them is empty |
| MoviesAnalytics.ShortTitle | frontend/pages/admin/movies-analytics.js:136 | a chart label is at most 15 characters and a short title is kept |
| MoviesAnalytics.TopMovies | frontend/pages/admin/movies-analytics.js:131-137 | min(10, n) of the n movies with a collection, in non-increasing collection order; every movie left out has a collection no larger than any listed one; the list is a sub-multiset of the movies with a collection |
| MoviesAnalytics.TopMoviesFacts | frontend/pages/admin/movies-analytics.js:131-137 | filter, sort and slice give min(10, n) members with a collection, in order, the best ones, and none more often than it occurs |
| MoviesAnalytics.TopMembers | frontend/pages/admin/movies-analytics.js:133-135 | the listed movies come from the filtered data and have a collection |
| MoviesAnalytics.TopOrdered | frontend/pages/admin/movies-analytics.js:134-135 | the listed collections never increase |
| MoviesAnalytics.TopIsBest | frontend/pages/admin/movies-analytics.js:134-135 | no movie left out beats a listed one |
| MoviesAnalytics.TopMoviesByCollection | frontend/pages/admin/movies-analytics.js:131-137 | min(10, n) bars, one per top movie with its shortened title and collection, in non-increasing collection order |
| MoviesAnalytics.BarsOf | frontend/pages/admin/movies-analytics.js:136 | one bar per listed movie, in the same order, with its shortened title and its collection |
| ContentLibrary.OneHot | frontend/pages/admin/content.js:48-51 | a platform flag is 1 exactly when the item's `platform` is that name, and 0 otherwise |
| ContentLibrary.PlatformOf | frontend/pages/admin/content.js:94 | only the four platform names index a platform column |
| ContentLibrary.NewItemShape | frontend/pages/admin/content.js:42-53 | a new item gets id `new-<idx>`, `isNew` true, its title, year, rating and type, and one-hot platform flags (at most one set) |
| ContentLibrary.FinalItemShape | frontend/pages/admin/content.js:56-62 | a stored item gets id `final-<idx>`, year through `parseInt` and rating through `parseFloat`, the rest kept |
| ContentLibrary.NormalizeNewAll | frontend/pages/admin/content.js:42-53 | one normalised item per new record, indexed by position |
| ContentLibrary.NormalizeFinalAll | frontend/pages/admin/content.js:56-62 | one normalised item per stored record, indexed by position |
| ContentLibrary.CombinedOrder | frontend/pages/admin/content.js:65 | the combined list is all new items followed by all stored items |
| ContentLibrary.PrefixedInjective | frontend/pages/admin/content.js:43-58 | different positions give different ids under one prefix |
| ContentLibrary.CombinedIdsDistinct | frontend/pages/admin/content.js:42-65 | no two combined items share an id |
| ContentLibrary.StageNarrows | frontend/pages/admin/content.js:82-101 | a stage keeps a subsequence, exactly the items its test admits when active, and everything when inactive |
| ContentLibrary.StagesNarrow | frontend/pages/admin/content.js:78-101 | the stages together only narrow the list and keep exactly the items every active stage admits |
| ContentLibrary.StagesSubsequence | frontend/pages/admin/content.js:78-101 | the staged result is a subsequence of the content |
| ContentLibrary.StagesMembership | frontend/pages/admin/content.js:78-101 | an item survives iff every active stage admits it |
| ContentLibrary.StageMember | frontend/pages/admin/content.js:82-101 | an item survives one stage iff it is present and, when the stage is active, admitted |
| ContentLibrary.NoStageKeepsAll | frontend/pages/admin/content.js:89-101 | "all" filters, minRating 0 and an empty search keep the content unchanged |
| ContentLibrary.FilteredRowsSorted | frontend/pages/admin/content.js:78-122 | the result is a permutation of the staged items, and no item is preceded by one its key should follow |
| ContentLibrary.NewestFirst | frontend/pages/admin/content.js:106-118 | sorting by year descending gives non-increasing years |
| ContentLibrary.BestRatedFirst | frontend/pages/admin/content.js:109-118 | sorting by rating descending gives non-increasing ratings |
| ContentLibrary.FilterArray | frontend/pages/admin/content.js:84-100 | `Array.filter` gives a fresh array of the items the test keeps |
| ContentLibrary.ApplyStage | frontend/pages/admin/content.js:82-101 | an active stage gives a fresh filtered array; an inactive one passes the same array on |
| ContentLibrary.ApplyStages | frontend/pages/admin/content.js:79-101 | the staged array holds `Stages` of the content, and it is the content array itself when nothing narrowed |
| ContentLibrary.SortInPlace | frontend/pages/admin/content.js:104-119 | the array is sorted in place by the chosen key and direction |
| ContentLibrary.PageRows | frontend/pages/admin/content.js:125-128 | a page holds at most 15 items, starting at (page-1)*15 |
| ContentLibrary.TotalPages | frontend/pages/admin/content.js:130 | the page total is ceil(len/15) |
| ContentLibrary.YearsOf | frontend/pages/admin/content.js:134 | the year of every item, in order |
| ContentLibrary.YearOptionsFacts | frontend/pages/admin/content.js:133-136 | the year options are exactly the truthy years present, without repeats, in non-increasing order of `WholeOrZero`, the value `Number()` gives `b - a` |
| ContentLibrary.ContentPage.constructor | frontend/pages/admin/content.js:12-21 | the page starts empty with the default filters, no search and page 1 |
| ContentLibrary.ContentPage.Load | frontend/pages/admin/content.js:24-75 | a successful fetch stores the combined list; a failed one leaves the content alone |
| ContentLibrary.ContentPage.FilteredContent | frontend/pages/admin/content.js:78-122 | the result holds the staged, sorted content; when nothing narrowed, the result is the content array itself, now sorted; otherwise the content is untouched |
| ContentLibrary.ContentPage.SetSearchTerm | frontend/pages/admin/content.js:171 | typing a search term sets it and returns to page 1 |
| ContentLibrary.ContentPage.SetFilters | frontend/pages/admin/content.js:178-227 | choosing a filter or sort key leaves search and page alone |
| ContentLibrary.ContentPage.ToggleOrder | frontend/pages/admin/content.js:231 | the order button flips between ascending and descending |
| ContentLibrary.ContentPage.PrevPage | frontend/pages/admin/content.js:298-303 | Previous moves back one page and is disabled on page 1 |
| ContentLibrary.ContentPage.NextPage | frontend/pages/admin/content.js:308-313 | Next moves forward one page and is disabled from the last page on |
| HomePage.FinalEmbedFacts | frontend/pages/index.js:22-34 | a watch or embed link becomes an embed link, any other link is kept, and a supplied embed link is used as is |
| HomePage.WatchLinkRewritten | frontend/pages/index.js:25-28 | a trailer link's first "watch?v=" becomes "embed/" and the rest is kept |
| HomePage.ReplaceFirstSkip | frontend/pages/index.js:27-33 | `String.replace` with a string pattern rewrites the first occurrence only |
| HomePage.PlayRequestFields | frontend/pages/index.js:36-41 | the opened trailer has the movie's fields, its own id, the rewritten link and the audio flag |
| HomePage.OverlayFacts | frontend/pages/index.js:82-113 | the merged list is as long as the longer of API list and manual list, with API items past the manual ones unchanged and gaps filled by manual items; where both exist, manual fields override API fields, and other API fields survive |
| HomePage.MergeRow | frontend/pages/index.js:83-113 | the map and the index-writing fill loop compute exactly `Overlay` |
| HomePage.FetchCurated | frontend/pages/index.js:53-129 | a failed fetch shows the fallback lists; a successful one overlays the manual trending and top-rated items and passes Netflix through |
| HomePage.TrendingCards | frontend/pages/index.js:419 | the first min(5, n) of the n trending items, in order |
| HomePage.TopRatedCards | frontend/pages/index.js:554 | the first min(6, n) of the n top-rated items, in order |
| HomePage.CardTitle | frontend/pages/index.js:57-69 | every hand-picked card has its title |
| HomePage.ManualTitles | frontend/pages/index.js:56-70 | every hand-picked trending and top-rated item has a title |
| HomePage.ShownTitles | frontend/pages/index.js:83-113 | the first cards of a merged or fallback row carry the manual titles |
| HomePage.HandPickedTitlesShown | frontend/pages/index.js:81-113 | whatever the API returns, 5 trending and 6 top-rated cards show, with the hand-picked titles in order |
| HomePage.BackdropsNonEmpty | frontend/pages/index.js:136-146 | every default backdrop is a non-empty URL |
| HomePage.CustomTrendingNotBlank | frontend/pages/index.js:147-153 | every custom trending image is non-blank |
| HomePage.NotBlank | frontend/pages/index.js:168 | a URL not ending in whitespace survives `trim()` |
| HomePage.BackdropChoice | frontend/pages/index.js:166-179 | trending cards 0-4 get their custom image; everything else gets `backdrops[(index + offset) % 6]`, offset 5 for top_rated and 0 otherwise; the chosen backdrop is never empty |
| RecommendPage.FailureOf | frontend/pages/recommend.js:25-35 | a thrown request reports its message, a failed status reports `detail` or the default text, and an `error` field reports itself |
| RecommendPage.RecommendPage.constructor | frontend/pages/recommend.js:7-13 | the page starts with no title, no results, no error and page 1 |
| RecommendPage.RecommendPage.StartSearch | frontend/pages/recommend.js:16-23 | a blank or whitespace-only title sends nothing and changes nothing; otherwise the results and error are cleared, loading starts and the page returns to 1 |
| RecommendPage.RecommendPage.FinishSearch | frontend/pages/recommend.js:25-38 | a failure sets the error and keeps the results, success stores the results, and loading ends either way |
| RecommendPage.RecommendPage.CurrentResults | frontend/pages/recommend.js:42-44 | a page shows the slice [(p-1)*5, p*5), so at most 5 results |
| RecommendPage.RecommendPage.TotalPages | frontend/pages/recommend.js:45 | the page total is ceil(len/5) |
| RecommendPage.RecommendPage.PrevPage | frontend/pages/recommend.js:131-134 | Previous keeps the page within [1, totalPages] |
| RecommendPage.RecommendPage.NextPage | frontend/pages/recommend.js:136-139 | Next keeps the page within [1, totalPages] |
| RecommendPage.EveryResultReachable | frontend/pages/recommend.js:42-45 | every result appears on some page between 1 and the total |
| Paging.SliceIndex | frontend/pages/recommend.js:44 | `Array.slice` clamps a bound into [0, len], counting a negative bound from the end |
| Paging.JsSlice | frontend/pages/recommend.js:44 | `Array.slice(b, e)` is the clamped range, empty when the bounds cross |
| Paging.Window | frontend/components/UserAnalytics.js:166-169 | a window of `size` items from `start` holds what is left, at most `size`, in order |
| Paging.Page | frontend/pages/admin/content.js:125-128 | page p of size n holds items from (p-1)*n on, at most n |
| Paging.PageCount | frontend/pages/admin/content.js:130 | `Math.ceil(len / size)` |
| Paging.ItemOnPage | frontend/pages/admin/content.js:125-130 | every item lies on one page between 1 and the page total, at its offset |
| Paging.PageEmptyIffBeyond | frontend/pages/admin/content.js:125-130 | a page is empty iff it lies beyond the page total |
| Paging.Prev | frontend/pages/admin/users.js:180-181 | `Math.max(1, p - 1)`: one back, never below 1 |
| Paging.Next | frontend/pages/admin/users.js:188-189 | `Math.min(p + 1, totalPages)`: one on, never past the total |
| Paging.ButtonsKeepRange | frontend/pages/admin/users.js:179-193 | from a page in [1, totalPages] both buttons stay in range, move at most one, and stand still exactly at the ends |
| RatingAdmin.FilteredRatings | frontend/pages/admin/rating.js:24-28 | "all" returns the mock list unchanged; any other choice keeps, in order, exactly the ratings r with min <= r < min+2 |
| RatingAdmin.LowRatingsEmpty | frontend/pages/admin/rating.js:6-27 | "Low Ratings" (min 0) keeps nothing, since every mock rating is at least 6.5 |
| UsersAdmin.StatusOf | frontend/pages/admin/users.js:84 | a missing or empty status reads as "Active" |
| UsersAdmin.FilteredUsers | frontend/pages/admin/users.js:82-85 | "all" returns the users unchanged; any other status keeps, in order, exactly the users whose defaulted status matches |
| UsersAdmin.MissingStatusIsActive | frontend/pages/admin/users.js:84 | a user without a status counts as Active and matches no other status |
| UsersAdmin.StatusColor | frontend/pages/admin/users.js:87-91 | Active is green, Banned red, anything else gray; green means Active and red means Banned, so the badge tells the three apart |
| UsersAdmin.EditFormFor | frontend/pages/admin/users.js:47-50 | the edit form defaults a missing tier to "Free" and a missing status to "Active" |
| UsersAdmin.UsersPage.constructor | frontend/pages/admin/users.js:7-19 | the page starts with no users, page 1 of 1, filter "all" and the default form |
| UsersAdmin.UsersPage.HandleEdit | frontend/pages/admin/users.js:45-52 | editing selects the user, fills the form with defaults and opens the dialog |
| UsersAdmin.UsersPage.PrevPage | frontend/pages/admin/users.js:179-183 | Previous keeps the page within [1, totalPages] |
| UsersAdmin.UsersPage.NextPage | frontend/pages/admin/users.js:187-191 | Next keeps the page within [1, totalPages] |
| Js.ParseInt | frontend/pages/admin/content.js:60 | `parseInt` keeps a number, reads text as `IntPrefix` does and gives `NaN` for anything else |
| Js.ParseFloat | frontend/pages/admin/content.js:61 | `parseFloat` keeps a number, reads text as `FloatPrefix` does and gives `NaN` for anything else |
| Js.IntPrefixReads | frontend/pages/admin/content.js:60 | white space, an optional '-', digits and text not starting with a digit read as the signed digits |
| Js.IntPrefixAgrees | frontend/pages/admin/content.js:60 | a plain digit string reads the same under `parseInt` as under `pd.to_numeric` |
| Js.TrailingDecimalsIgnored | frontend/components/UserAnalytics.js:127 | `parseInt("2020.0")` is 2020 |
| Js.LeadingSpaceSkipped | frontend/components/UserAnalytics.js:127 | `parseInt(" 2020")` is 2020 |
| Js.NoLeadingDigit | frontend/components/UserAnalytics.js:127 | `parseInt("N/A")` is `NaN` |
| Js.FloatPrefixWhole | frontend/pages/admin/content.js:61 | white space, an optional '-', digits and text starting with neither a digit nor '.' read as that many points |
| Js.FloatPrefixDecimal | frontend/pages/admin/content.js:61 | digits, '.', a digit d and anything after read as the points plus d tenths |
| Js.RatingBeforeSlash | frontend/components/UserAnalytics.js:130 | `parseFloat("8.5/10")` is 8.5 |
| Js.SpacedWholeRating | frontend/components/UserAnalytics.js:130 | `parseFloat(" 7")` is 7 |
| Js.TextOf | frontend/pages/admin/content.js:85-91 | the fallback to '' keeps text and gives "" for a falsy value |
| Js.WholeOrZero | frontend/pages/admin/content.js:107-108 | the fallback to 0 keeps a number, gives 0 for a falsy value and reads text as `Number()` does |
| Js.TenthsOrZero | frontend/pages/admin/content.js:100-111 | the same for a rating in tenths |
| Js.NumberWholeReads | frontend/components/UserAnalytics.js:117 | `Number()` of white space, an optional sign, digits, an optional '.' with zeros, and white space is the signed whole number |
| Js.NumberTenthsReads | frontend/pages/admin/content.js:100 | `Number()` of white space, an optional sign, digits, an optional '.' with digits, and white space is the signed value in tenths |
| Js.BlankIsZero | frontend/components/UserAnalytics.js:117 | `Number()` of blank text is 0 |
| Js.NumberWholeAgrees | frontend/pages/admin/content.js:135 | every text that `pd.to_numeric` reads as a whole year reads the same under `Number()` |
| Js.YearSpellings | frontend/components/UserAnalytics.js:117 | `Number()` reads " 2020", "2020 ", "+2020" and "2020.0" as 2020 |
| Common.RoundedMeanNearest | frontend/components/UserAnalytics.js:181 | the rounded mean r of a sum over n values satisfies \|sum - n·r\| ≤ n/2, so r is the mean to the nearest unit, ties upward |
| Common.RoundedMeanUnique | frontend/pages/admin/movies-analytics.js:100-101 | the rounded mean is the only value within half a unit of the mean |

## Left out

- **Feature vectorisation** (`recommender.py:72-106`): multi-hot genres, L2 normalisation, min-max scaling, square-root weights and cosine similarity are floating-point. The similarity matrix is a given pair-scoring function over catalog rows.
- **Rounding**: `round(score * 100, 2)`, `float()`, `toFixed` and `toLocaleString` are not modelled. Scores and averages are integers, and an average is rounded to the nearest tenth by integer division.
- **File and network I/O**: JSON reads and writes, `fetch`, `localStorage` and the copy to the front-end data folder in `merge_data.py:67-73` are left out. What they produce is an input, such as `Source`, `Response` or `Option` of the loaded lists.
- **Language-model calls**: the Gemini call's reply is an input, and `json.loads` is a given parser. The search that follows the intent step is not modelled: `search_movies_with_ai` (imported at `ai.py:11`, called at `ai.py:179`) is defined nowhere, because `ml/recommender.py` has no such function.
- **`mapMovies`** (`content.js:66`): its definition is missing. The content state is modelled as the combined list itself.
- **The charts**: `yearChartData` and `typeChartData` (`UserAnalytics.js`), and `industryDistribution`, `collectionByIndustry` and `yearlyTrend` (`movies-analytics.js`), are rendering summaries that no listed property mentions.
- Common.Lower: Python's `lower()` and JavaScript's `toLowerCase` are modelled with ASCII case folding only.
- Ranking.SubstringMatch: the substring test is literal, although pandas' `str.contains` reads the query as a regular expression by default.
- Curation.Bucket: pandas' `sort_values` uses quicksort, which is not stable, so the source leaves the order of tied rows unspecified. The model keeps them in catalog order. `BucketIsTop` states only what every tie order satisfies.
- ContentLibrary.SortInPlace: the comparator never returns 0, and `Array.sort` leaves the order of ties implementation-defined. The model fixes one tie order, input order. `FilteredRowsSorted`, `NewestFirst` and `BestRatedFirst` state only the permutation and the key order, which every tie order satisfies.
- MoviesAnalytics.SortedData: relational comparison of mixed strings, numbers and `NaN` is not modelled. Each column holds either numbers (a missing rating or collection sorts as -1) or strings.
- ContentLibrary.TitleKey: titles compare by character code. This agrees with JavaScript's UTF-16 comparison for characters of the Basic Multilingual Plane only.
- **Js.ParseInt and Js.ParseFloat**: both skip leading white space, take a sign and read the leading numeral, ignoring what follows. Not modelled: `parseInt`'s "0x" hexadecimal prefix, and `parseFloat`'s exponents ("8e1" reads as 8) and "Infinity". A rating with more than one decimal is kept in tenths, so the later decimals are dropped.
- UserAnalytics.ParsedYear and UserAnalytics.Rating: they read through `Js.ParseInt` and `Js.ParseFloat`, with the same gaps. A year written in hexadecimal ("0x7E4") reads as 0 where `parseInt` gives 2020.
- **Catalog.ParseTenths and Catalog.ParseWhole**: `pd.to_numeric` also reads signs, exponents, a trailing dot ("8."), surrounding whitespace and decimal years. The model reads such text as not a number, so it becomes 0. A rating with more than one decimal is kept in tenths, so the later decimals are dropped.
- **Catalog.GenresText and Curation.FieldText**: a float column prints as "5.0" under `str`. Numbers are integers in the model, so a numeric cell prints as its integer digits.
- **UserAnalytics.AvailableYears**: `b - a` reads a text year with `Number()`. The model reads it the same way: it trims white space, takes a sign and reads digits with an optional '.' and zeros. It does not read a year with non-zero decimals ("2020.5"), an exponent, a "0x", "0o" or "0b" prefix, or "Infinity"; it ranks such a year as 0. Text that `Number()` rejects gives `NaN`, and the order is then implementation-defined; the model ranks it as 0 too.
- UserAnalytics.YearOptionsOrdered: it orders by `YearNumber`, with the gaps just listed. A year "2020.5" sorts as 2020.5 in the source and as 0 in the model.
- ContentLibrary.YearOptionsFacts: it orders by `Js.WholeOrZero`, with the same `Number()` gaps. `YearKey` and `ContentLibrary.SortInPlace` order years the same way. In the source, `valA > valB` and `valA < valB` on two text years compare the strings, not their numbers; the model compares the numbers `Number()` gives.
- **Js.TextOf**: a truthy non-string title or type would make `toLowerCase` throw in the source. The model reads it as "".
- UserAnalytics.TextOr: it is `Js.TextOf` of the cell, with the same gap. A non-zero number in `Title` or `Type` throws a `TypeError` in the source (`UserAnalytics.js:133,159`), and the dashboard's filter or search then fails. The model reads it as "".
- Ranking.ExactMatch: when no row has a "Title" column, the title match raises a `KeyError` in `get_recommendations`. When every `Title` cell is a number, pandas gives the column an integer type, and `.str` raises `AttributeError` (`recommender.py:119`). Neither is inside a `try`, so the request fails. The model treats such rows as matching nothing, so the result is empty. In a mixed column a numeric title is `NaN` to `.str.lower()` and matches nothing, as in the model.
- **HomePage.ListOr**: a `trending_now` or `top_rated` that is present but not an array would throw in `.map`. The model takes the API lists as lists of objects or absent.
- **HandPickedTitlesShown**: the trailer lookup by title (`TRAILERS_DATA`) and the rest of the card rendering are not modelled.
- **ContentLibrary.ContentPage.SetFilters**: changing a filter does not reset the page in the source, and the model does not reset it either. A page past the new total then shows an empty slice, which `PageEmptyIffBeyond` describes.
- **UsersAdmin.UsersPage**: `fetchUsers` and `handleUpdateUser` call the server for the user list and the page total. The list and total are fields of the model, not fetched.
- **Concurrency**: React's batching of state updates and the asynchronous gap between `StartSearch` and `FinishSearch` are modelled as two separate steps.
