# personal-news core, modelled in Dafny

personal-news is a news service. It fetches headlines for a keyword and cleans
each headline's fields. It gives every article a credibility ("truth") score,
the mean of a fake-news classifier's scores over the article's sentences and
its title. It also stores users' ratings of keywords and recommends keywords
from a recommender's predictions. This project models the deterministic core
of that service and proves its properties.

- `Headline` (`headline.dfy`, news/headline.py):
  - `clean_string`: the non-greedy `<.*?>` removal, then line-feed removal.
  - Keyword cleaning (filter the empty ones, title-case the rest, meta keywords first) and truncation.
  - The `publishedAt` normaliser.
  - The field selection of `parse_article`.
  - `Headline.as_dict`.
- `Database` (`database.dfy`, database/database.py), a class `Store` holding the two tables:
  - keyword interning under AUTOINCREMENT ids;
  - a users table with one row per (user, keyword), replaced on conflict;
  - the cold-start check and the read-back of all rows.
- `Dataset` (`dataset.dfy`, database/dataset.py):
  - a class `RatingTable` for the module-level frame and dataset, with the column-by-column build, the one-shot guard and the row append;
  - the ranking pipeline of `get_predictions_for_user`: filter to one user, stable sort by descending estimate, look up the keyword text, take a prefix.
- `FakeNews` (`fakenews.dfy`, fakenews/__init__.py): the split of an article into units, and the mean of the classifier's scores over them.
- `PyBuiltins` (`py_builtins.dfy`) holds the Python built-ins this code relies on, written out for ASCII text: `str.strip`, `str.split` on one character, `str.title`, and prefix slicing `xs[:n]`, negative `n` included. `Wrappers` holds `Option`.

Inputs the code gets from outside are parameters of the model:

- NewsAPI article records, as `ApiArticle`, with every field possibly null.
- The keywords the page scraper found, as `PageKeywords`.
- The classifier, `score: string -> real`.
- The recommender's predictions, a sequence of `Prediction(uid, iid, est)`.
- The rows handed to `Dataset.RatingTable.InitDataset`: the result of `get_ratings` (`Database.Store.GetRatings`, a set) in any order. Every property of the build holds for any row sequence.
- The already-formatted truth-score text.

Two consequences of the code that may surprise a reader:

- An article body of two sentences that each end on a period yields four units, not three. `split('.')` leaves an empty piece after the final period, and that piece is stripped and scored like any other unit (`FakeNews.TrailingPeriodEmptyUnit`, `FakeNews.TwoSentenceUnits`).
- `clean_string` does not remove a `<...>` span broken by a line feed, because `.` does not match a line feed. Removing line feeds afterwards then rejoins the span (`Headline.TagAcrossLineSurvives`).

## Model

| member | source | states |
|---|---|---|
| Headline.TagEnd | news/headline.py:33 | where a match of `<.*?>` opened at a `<` ends: the first `>` after it with no line feed before it; `None` only when a line feed lies before every later `>` (or no `>` follows) |
| Headline.TagEndAt | news/headline.py:33 | conversely, the match ends at the first `>` whenever no line feed comes before it |
| Headline.StripTags | news/headline.py:53 | removing tags never lengthens the text and introduces no character that was not in it |
| Headline.StripTagsKeepsChar | news/headline.py:53 | every character other than `<` is kept, in place |
| Headline.StripTagsSpan | news/headline.py:53 | a single-line `<...>` span with no `>` inside is dropped whole; the text before it is kept and removal resumes after it |
| Headline.StripTagsUnmatchedOpen | news/headline.py:33-53 | a `<` with a line feed before every later `>` (or no `>` after it) is kept as an ordinary character |
| Headline.RemoveNewlines | news/headline.py:54 | the result holds no line feed and is no longer than the input |
| Headline.RemoveNewlinesChar | news/headline.py:54 | a line feed is dropped and any other character is kept |
| Headline.RemoveNewlinesAppend | news/headline.py:54 | the removal works piecewise on a concatenation, so all other characters are kept in order |
| Headline.RemoveNewlinesNoLineFeed | news/headline.py:54 | text without a line feed is left unchanged |
| Headline.CleanString | news/headline.py:50-55 | the cleaned string holds no line feed and is never longer than the input |
| Headline.StripTagsNoOpen | news/headline.py:53 | text without a `<` is left unchanged by the tag removal |
| Headline.CleanStringWithoutTags | news/headline.py:53-54 | on text without a `<`, cleaning only removes line feeds |
| Headline.StripTagsLeavesNoTag | news/headline.py:33-53 | on single-line text, no `<` left by the tag removal has a `>` after it |
| Headline.CleanStringLeavesNoTag | news/headline.py:50-55 | on single-line text, no `<` in the cleaned string has a `>` after it |
| Headline.TagAcrossLineSurvives | news/headline.py:50-55 | a tag split by a line feed survives: `<b` LF `>` cleans to `<b>` |
| Headline.NonEmpty | news/headline.py:41-44 | the `filter(verify, …)` truthiness filter; its contract is stated by `Headline.NonEmptyMembers`, `Headline.NonEmptyCount` and `Headline.NonEmptyStable` |
| Headline.NonEmptyMembers | news/headline.py:41-44 | the keyword filter keeps only non-empty keywords of its input |
| Headline.NonEmptyCount | news/headline.py:41-44 | the filter drops exactly the empty keywords: output length is input length minus the number of empty strings |
| Headline.NonEmptyStable | news/headline.py:41-44 | the filter keeps order: it acts piecewise on a concatenation and keeps one keyword exactly when it is non-empty |
| Headline.TitleAll | news/headline.py:42-44 | title-casing keeps the number of keywords |
| PyBuiltins.Title | news/headline.py:42 | `str.title` on ASCII text; its contract is stated by `PyBuiltins.TitleAfterLength`, `PyBuiltins.TitleAfterAt` and `PyBuiltins.TitleSpec` |
| PyBuiltins.TitleAfterAt | news/headline.py:42 | `title` on a suffix, at each position, agrees with the per-character rule given whether a letter precedes the suffix |
| PyBuiltins.TitleAfterLength | news/headline.py:42 | `title` keeps the length of the text |
| PyBuiltins.TitleSpec | news/headline.py:42 | `title` keeps the length, and each letter is upper-cased when no letter precedes it and lower-cased otherwise; other characters are kept |
| Headline.CleanKeywords | news/headline.py:37-47 | `clean_keywords`: filter and title-case the meta keywords, then the article keywords; its contract is stated by `Headline.CleanKeywordsSpec` |
| Headline.CleanKeywordsSpec | news/headline.py:37-47 | the cleaned keywords are the meta keywords' followed by the article keywords'; their number is the count of non-empty keywords in both lists; each one is non-empty and the title-case of a non-empty input keyword |
| Headline.CleanArticleKeywords | news/headline.py:58-61 | never more keywords than the cleaning produced |
| PyBuiltins.Take | news/headline.py:61 | `xs[:n]` is a prefix of `xs`, of length `min(n, len)` for `n >= 0` and `max(len + n, 0)` for negative `n` |
| Headline.DefaultKeywordsFirstFive | news/headline.py:58-61 | with the default amount, the first five cleaned keywords, or all of them when there are fewer |
| Headline.CleanArticleKeywordsPrefix | news/headline.py:58-61 | `keywords[:amount]` is exactly the first `min(amount, len)` cleaned keywords (all but the last `-amount` for a negative amount) |
| Headline.SpaceOutTZ | news/headline.py:70 | `re.sub('[TZ]', ' ', s)` keeps the length, leaves no `T` or `Z`, and adds no line feed |
| Headline.NormalizePublishedAt | news/headline.py:70 | clean, replace `T` and `Z` by spaces, strip; its contract is stated by `Headline.NormalizePublishedAtSpec` and `Headline.PublishedAtOfUtcTimestamp` |
| Headline.NormalizePublishedAtSpec | news/headline.py:69-70 | the normalised timestamp holds no `T`, `Z` or line feed and has no whitespace at either end |
| Headline.SpaceOutTimestamp | news/headline.py:70 | the substitution turns `<date>T<time>Z` into `<date> <time> ` when neither part holds a `T` or `Z` |
| Headline.PublishedAtOfUtcTimestamp | news/headline.py:69-70 | a UTC timestamp `<date>T<time>Z` (RFC 3339 section 5.6) normalises to `<date> <time>` |
| Headline.ParseArticle | news/headline.py:64-79 | `parse_article`'s field selection; its contract is stated by `Headline.ParseArticleSpec` |
| Headline.ParseArticleSpec | news/headline.py:64-79 | the parsed url, title, author and description are single-line; the timestamp holds no `T`/`Z`/line feed and is trimmed; the image URL and truth score pass through unchanged; the keywords are non-empty and number at most `amount_keywords` |
| Headline.AsDict | news/headline.py:26-30 | the dictionary has exactly the eight keys `url`, `title`, `author`, `publishedAt`, `image`, `description`, `keywords`, `truthScore` |
| Headline.AsDictRoundTrip | news/headline.py:26-30 | every field is stored unchanged under its key: reading the dictionary back gives the headline |
| Database.Store.constructor | database/database.py:21-35 | a fresh database has both tables empty, and the keyword tables are consistent |
| Database.Store.GetKeyword | database/database.py:55-60 | a keyword text is returned exactly when the id is stored; an id the counter never handed out gives `None` |
| Database.Store.GetKeywordId | database/database.py:63-70 | a known keyword returns its id and changes nothing. An unknown one is stored under the next counter value, larger than every earlier id. Either way, looking the id up gives the keyword back, and the ratings are untouched |
| Database.Store.DistinctKeywordsDistinctIds | database/database.py:22-26 | distinct keyword texts never share an id |
| Database.Store.CheckFirstTime | database/database.py:40-45 | the five default keywords exactly when the user has no rating row, `None` otherwise |
| Database.Store.AddRating | database/database.py:48-52 | the users table gains or replaces exactly the row for (user, keyword id) with the new rating, and every other row is kept. Existing ids never change; a new keyword is added alone, under the next counter value, and the counter advances by one. The user no longer counts as new; every other user's cold-start answer is unchanged |
| Database.Store.GetRatings | database/database.py:73-76 | a row is returned exactly when it is stored in the users table |
| Database.Store.RatingRowsUnique | database/database.py:29-35 | at most one row per (user, keyword) pair |
| Dataset.RowsOfColumns | database/dataset.py:50-52 | projecting the `user_id`, `keyword_id`, `rating` columns of rows split into columns gives back the rows |
| Dataset.ColumnsOfRows | database/dataset.py:50-52 | splitting the projected rows into columns gives back the columns |
| Dataset.RatingTable.constructor | database/dataset.py:14-16 | nothing is built at start |
| Dataset.RatingTable.CreateDataset | database/dataset.py:46-52 | the frame becomes the given columns, and the dataset their row projection |
| Dataset.RatingTable.InitDataset | database/dataset.py:22-32 | a second call changes nothing. A first call builds each column with one entry per rating, entry i taken from rating i, and the dataset holds exactly the ratings |
| Dataset.RatingTable.AddRow | database/dataset.py:35-43 | one entry is appended to each column, earlier entries are kept, and the dataset gains that row at the end |
| Dataset.ForUser | database/dataset.py:61-67 | the filter to one user and the unpacking to (keyword id, estimate); its contract is stated by `Dataset.ForUserOne`, `Dataset.ForUserAppend`, `Dataset.ForUserMembership` and `Dataset.ForUserCount` |
| Dataset.ForUserOne | database/dataset.py:61-67 | one prediction yields its (keyword id, estimate) pair exactly when it is for the user, and nothing otherwise |
| Dataset.ForUserAppend | database/dataset.py:61-67 | the filter acts piecewise on a concatenation, so the kept pairs stay in prediction order |
| Dataset.ForUserMembership | database/dataset.py:61-67 | a (keyword id, estimate) pair survives the filter exactly when a prediction for this user carries it |
| Dataset.ForUserCount | database/dataset.py:61-67 | the filter keeps one pair per prediction for the user |
| Dataset.SortByEstimate | database/dataset.py:70 | `sorted(…, key=estimate, reverse=True)` as insertion in input order; its contract is stated by `Dataset.SortByEstimateSpec` |
| Dataset.InsertSorted | database/dataset.py:70 | inserting into a ranking keeps it ordered by non-increasing estimate |
| Dataset.InsertMultiset | database/dataset.py:70 | inserting adds exactly that entry |
| Dataset.InsertWithEstimate | database/dataset.py:70 | the inserted entry goes after every entry with the same estimate |
| Dataset.SortByEstimateSpec | database/dataset.py:70 | `sorted(..., reverse=True)` by estimate is ordered by non-increasing estimate, is a permutation of its input, and keeps entries with equal estimates in their input order (stability) |
| Dataset.RankingSpec | database/dataset.py:55-70 | the user's ranking holds one entry per prediction for the user, each carried by such a prediction; it is sorted and stable |
| Dataset.PredictionsForUser | database/dataset.py:55-74 | `get_predictions_for_user` with the predictions as a parameter; its contract is stated by `Dataset.RankingSpec`, `Dataset.PredictionsForUserSpec`, `Dataset.PredictionsForUserDefault` and `Dataset.NoPredictionsNoKeywords` |
| Dataset.PredictionsForUserSpec | database/dataset.py:72-74 | the result has `min(amount, number of the user's predictions)` entries (slice rule for a negative amount), and entry i is the keyword lookup, possibly `None`, of the i-th ranked keyword id |
| Dataset.PredictionsForUserDefault | database/dataset.py:55-74 | with the default amount, five keywords, or one per prediction when the user has fewer than five |
| Dataset.NoPredictionsNoKeywords | database/dataset.py:72-74 | a user without predictions gets an empty list |
| PyBuiltins.Split | fakenews/__init__.py:12 | `split` on one character gives one more piece than there are separators, and no piece holds the separator |
| PyBuiltins.SplitJoin | fakenews/__init__.py:12 | joining the pieces with the separator gives back the text |
| PyBuiltins.SplitTrailingSeparator | fakenews/__init__.py:12 | a text ending on the separator splits with an empty last piece |
| PyBuiltins.Strip | fakenews/__init__.py:12 | `str.strip` on ASCII whitespace; its contract is stated by `PyBuiltins.StripSpec` and `PyBuiltins.StripKeeps` |
| PyBuiltins.StripLeftSpec | fakenews/__init__.py:12 | `lstrip` leaves a suffix after a whitespace-only head, starting on a non-whitespace character |
| PyBuiltins.StripRightSpec | fakenews/__init__.py:12 | `rstrip` leaves a prefix before a whitespace-only tail, ending on a non-whitespace character |
| PyBuiltins.StripSpec | fakenews/__init__.py:12 | `strip` leaves the infix between a whitespace-only head and a whitespace-only tail, with no whitespace at either end |
| PyBuiltins.StripKeeps | fakenews/__init__.py:12 | stripping adds no character |
| FakeNews.SplitArticleText | fakenews/__init__.py:9-13 | the split gives the number of periods in the body plus two units, so never zero; the last unit is the title, unstripped |
| FakeNews.SplitArticleTextBodyUnits | fakenews/__init__.py:12 | every body unit holds no period and no whitespace at either end, and is the stripped piece between periods |
| FakeNews.TrailingPeriodEmptyUnit | fakenews/__init__.py:12 | a body ending on a period yields an empty unit just before the title |
| FakeNews.TwoSentenceUnits | fakenews/__init__.py:12 | a body of two period-terminated sentences yields four units: both stripped sentences, an empty unit and the title |
| FakeNews.BatchDetectFakeNews | fakenews/__init__.py:16-22 | `batch_detect_fake_news`: the mean classifier score over the units; its contract is stated by `FakeNews.OneScorePerUnit`, `FakeNews.BatchDetectFakeNewsBounds`, `FakeNews.ArrivalOrderIrrelevant`, `FakeNews.TwoSentences` and `FakeNews.SwapSentences` |
| FakeNews.Scores | fakenews/__init__.py:19-21 | one score per unit |
| FakeNews.OneScorePerUnit | fakenews/__init__.py:16-22 | the classifier is applied once per unit, the title's score comes last, and the score is their sum divided by the number of units |
| FakeNews.MeanBounds | fakenews/__init__.py:22 | the mean of probabilities is a probability |
| FakeNews.BatchDetectFakeNewsBounds | fakenews/__init__.py:22 | if every unit scores within [0, 1], the article score is within [0, 1] |
| FakeNews.SumPermutation | fakenews/__init__.py:20-22 | reordering the scores does not change their sum |
| FakeNews.ArrivalOrderIrrelevant | fakenews/__init__.py:19-22 | whatever order the finished scores arrive in, the list is non-empty and its mean is the article score |
| FakeNews.TwoSentences | fakenews/__init__.py:16-22 | a two-sentence body scores the mean of four unit scores, the empty unit included |
| FakeNews.SwapSentences | fakenews/__init__.py:16-22 | swapping the two sentences of such a body does not change its score |

## Left out

- The NewsAPI HTTP client (news/newsapi.py) is not part of this model. Article records are parameters.
- fakenews/prediction.py, the pickled scikit-learn classifier, is not part of this model. It is the parameter `score`; its [0, 1] range is a premise of `FakeNews.BatchDetectFakeNewsBounds`.
- The asyncio fan-out (`run_in_executor`, `asyncio.wait`) is modelled as a sequential map. The only effect of the unordered `done` set, the order of the results, is covered by `FakeNews.ArrivalOrderIrrelevant`.
- `get_top_headlines`, `get_newspaper_articles`, `_batch_build` and `build_article` are network orchestration over the newspaper library, and are left out.
- `_get_predictions`, `_ALGO` and the train/test split are left out: SVD training, random splitting and float numerics in a third-party library. Predictions are a parameter.
- pandas and surprise object construction beyond the column projection is left out.
- `Headline.ParseArticle`: the `f'{truth_score*100:.2f}%'` formatting is left out. The function takes the formatted text.
- Scores and means are real numbers, without IEEE rounding.
- web/api.py (Sanic routes, random user ids, JSON responses) is not part of this model.
- `Database.Store.AddRating` has no rating-range precondition. The 1 to 5 check lives only in web/api.py, and the database stores any integer.
- SQL mechanics (connections, cursors, commits) are left out. The tables are maps.
- `Database.Store.GetKeywordId` (and so `Database.Store.AddRating`) is modelled as one atomic step. In the source, the SELECT (database/database.py:64-65) and the INSERT (line 68) are separate awaits. Two requests for the same new keyword can interleave there: both miss the SELECT, and the second INSERT violates `UNIQUE(keyword)` and raises. That request gets an error reply and its rating is not stored. The tables are unchanged by the failed INSERT, so the model's properties still hold, but the model does not capture this failure.
- `Database.Store.GetRatings` returns a set: `ON CONFLICT REPLACE` makes the row order unspecified.
- AUTOINCREMENT's 64-bit id limit is left out: ids are unbounded integers.
- `Headline.AsDict` is a map, so the key order of the Python dict is not modelled.
- `PyBuiltins.Strip` and `PyBuiltins.Title` cover ASCII only. Non-ASCII whitespace and Unicode case mapping are left out.
- `Dataset.RatingTable.InitDataset` requires at least one rating for a first build. With none, pandas builds a frame without the three columns, and the column selection at database/dataset.py:52 raises. The crash is not modelled.
- `Dataset.RatingTable.AddRow` models the append the code intends. `DataFrame.to_dict()` returns per-column dictionaries, which have no `append`, so the function as written raises. It is never called.
- `Dataset.RatingTable.AddRow` requires a built table: `_DATAFRAME` is `None` before `init_dataset`.
- The rating scale `(1, 5)` handed to the recommender library's `Reader` (database/dataset.py:10, 51) only matters inside the left-out `_get_predictions`: the library clips each estimate into that range. The model takes estimates as given reals.
