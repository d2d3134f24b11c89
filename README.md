# async-news-filter: the article pipeline, modelled in Dafny

The repository rates news articles for "jaundice", i.e. how many charged words
they contain. One article is processed in five steps:

1. fetch the page;
2. pick the host's sanitizer from the `SANITIZERS` table;
3. sanitize the page;
4. fill in a missing title with the host's title parser (this step exists only in
   process_article.py);
5. split the text into normalized words and score them.

Whatever happens, a `finally` block appends exactly one result dictionary to a
shared `results` list. Its status is `OK`, `FETCH_ERROR`, `PARSING_ERROR` or
`TIMEOUT`, depending on which step failed. The HTTP handler in server.py does the
following:

- splits the comma-separated `urls` parameter;
- rejects more than ten URLs;
- runs the main.py variant of `process_article` on every URL, with the URL doubling
  as its title;
- answers with one JSON object per result.

Modules, leaves first:

- `PyValues` covers the Python runtime values: `None`, strings, numbers and enum
  members, plus `dict.get`, truthiness and the shared results list. The results list
  is a class whose `Append` updates it in place.
- `PyStr` covers `str.split` and `str.replace` for a one-character separator, with
  the round trip between split and join.
- `Adapters` covers the `SANITIZERS` and `TITLE_PARSERS` tables. A class `Registry`
  holds both tables. `GetSanitizer` installs the `dvmn_org` identity into the shared
  table on every call, then looks the host up. The title-parser lookup is a reading
  function.
- `Pipeline` covers `ProcessingStatus`, the stages, the outcomes of the collaborators
  that are not modelled, and `WellFormed`, the invariant every analysis keeps. The
  collaborators are the HTTP fetch, `urlparse(...).hostname`, `split_by_words` and
  `calculate_jaundice_rate`.
- `Article` covers `process_article` of process_article.py.
  - A function `Analyze` gives its meaning: the outcome, the stage it stopped in,
    and whether the title parser ran.
  - A method `ProcessArticle` runs the steps one after the other, as the code does,
    and is proved to append `ResultDict(url, Analyze(...).outcome)`.
- `LegacyArticle` covers `process_article` of main.py in the same way: no title
  resolution, and a result without `url` that carries `title` only when it is truthy.
- `Server` covers `handle` of server.py: the URL guards, the task group, and the
  response objects.

## Model

| member | source | states |
|---|---|---|
| PyValues.FalsyValues | process_article.py:88 | Python truthiness as `title or ...` uses it: a value is falsy exactly when it is `None`, the empty string, or zero |
| PyValues.Get | server.py:36-39 | `d.get(key)`: the stored value when the key is present, `None` when it is missing |
| PyValues.ResultList.constructor | server.py:28 | `process_results = []`: the shared result list starts empty |
| PyValues.ResultList.Append | process_article.py:104 | `results.append(d)` adds `d` at the end and leaves the earlier results as they were |
| PyStr.Split | server.py:18 | `s.split(',')` yields one piece more than there are commas, so never an empty list; `''` splits into `['']` |
| PyStr.JoinSplit | server.py:18 | joining the pieces of a split with the separator gives back the original parameter |
| PyStr.SplitJoin | server.py:18 | splitting the join of separator-free pieces gives back exactly those pieces |
| PyStr.SplitPiecesFree | server.py:18 | no piece of a split contains the separator |
| Adapters.HostKey | process_article.py:56 | the table key of a hostname has no dot, has the same length, and differs from the hostname only where it had a dot |
| Adapters.Lookup | process_article.py:57-59 | `table.get(key, table['inosmi_ru'])`: the host's entry when it has one, otherwise the `inosmi_ru` entry |
| Adapters.RegisterDvmn | process_article.py:58 | after `SANITIZERS['dvmn_org'] = lambda x: x` the key set gains `dvmn_org` (it may already be present), which maps to the identity; every other entry is unchanged |
| Adapters.Registry.constructor | adapters/__init__.py:6-12 | both tables start with the single `inosmi_ru` entry |
| Adapters.Registry.GetSanitizer | process_article.py:55-59 | installs the identity for `dvmn_org` in the shared table, then returns the host's sanitizer from the updated table, falling back to the `inosmi_ru` one |
| Adapters.Registry.TitleParserFor | process_article.py:62-65 | the host's title parser, falling back to the `inosmi_ru` one; the table is untouched |
| Adapters.RegisterDvmnIdempotent | process_article.py:58 | installing the `dvmn_org` entry again leaves the table as it was, so only the first `get_sanitizer` call changes `SANITIZERS` |
| Adapters.DvmnSanitizerIsIdentity | process_article.py:58-59 | once `get_sanitizer` has run, the sanitizer of `dvmn.org` returns the page unchanged, whatever the table held before |
| Adapters.InosmiHostKey | process_article.py:56-57 | `inosmi.ru` is looked up under the default key `inosmi_ru` |
| Adapters.UnknownHostFallsBack | process_article.py:56-59 | a host without an entry is served exactly like `inosmi.ru`: both get the `inosmi_ru` adapter |
| Adapters.HostKeyIgnoresDots | process_article.py:56 | two hostnames that differ only in `.` versus `_` share one table entry |
| Pipeline.SanitizerOf | process_article.py:55-59 | the sanitizer `get_sanitizer(url)` returns: the identity for a `dvmn.org` host; otherwise the host's entry, or the `inosmi_ru` entry when the host has none |
| Pipeline.Status.Value | process_article.py:42-46 | each `ProcessingStatus` member's value names that member back |
| Pipeline.StatusValueInjective | process_article.py:42-46 | distinct members have distinct values |
| Pipeline.InOrderIsStrict | process_article.py:85-90 | in an ordered trace every stage comes after all the stages before it, so no stage runs twice |
| Pipeline.Started | process_article.py:85-90 | the stages started before stopping at a stage begin with the fetch and end with that stage |
| Pipeline.StartedInOrder | process_article.py:85-90 | the started stages keep the order of the statements in the `try` block |
| Pipeline.StartedMembers | process_article.py:85-90 | a stage was started exactly when it does not come after the stopping stage; title resolution counts only when the parser ran |
| Pipeline.WellFormedStages | process_article.py:79-101 | after a fetch error only the fetch ran; after a parsing error neither splitting nor scoring ran; on `OK` every stage but title resolution ran; scoring runs only on `OK` |
| Article.Analyze | process_article.py:78-101 | every analysis is well formed: the statuses are exclusive; score and word count are set exactly on `OK`; each failure status comes from a stage that can raise it. The status is `FETCH_ERROR` exactly when the fetch raised `ClientError`. A truthy title is kept and the title parser is not consulted |
| Article.ResultDict | process_article.py:103 | the result has exactly the keys `url`, `status`, `score`, `words_count` and `title`; `url` and `title` are as given; `status` is the enum member; score and word count are `None` exactly when unset |
| Article.ProcessArticle | process_article.py:78-104 | the method appends exactly one result, the analysis' result dictionary, on every exit path, and returns the stages it started, which are in the order of the `try` block. `SANITIZERS` changes only once a page was fetched, and then only by the `dvmn_org` registration |
| Article.ClientErrorIsFetchError | process_article.py:98-99 | a `ClientError` from the fetch gives `FETCH_ERROR` with `None` score and word count, and the title as passed |
| Article.ArticleNotFoundIsParsingError | process_article.py:100-101 | a page the sanitizer rejects gives `PARSING_ERROR` with `None` score and word count, and the words are never split |
| Article.DeadlineIsTimeout | process_article.py:83-97 | a deadline expiring during the fetch, or during the split after every earlier stage succeeded, gives `TIMEOUT` |
| Article.AllStagesSucceedIsOk | process_article.py:85-94 | when every stage succeeds the status is `OK`, the word count is the number of split words and the score is their jaundice rate |
| Article.OkMeansEveryStageSucceeded | process_article.py:85-94 | conversely, `OK` means every stage succeeded, and the word count and score are those of the split words |
| Article.TitleResolution | process_article.py:88 | `title or get_titleparser(url)(html)`: a truthy title is kept; a falsy one is replaced by the parsed title once the page is fetched and sanitized; it stays as passed when the parser raises or an earlier stage fails |
| Article.ParsingErrorCauses | process_article.py:86-88 | `PARSING_ERROR` happens exactly when the sanitizer rejects the fetched page, or the title is falsy and the title parser rejects it |
| Article.TimeoutCauses | process_article.py:83-97 | `TIMEOUT` happens exactly when the deadline expires during the fetch, or during the split after the earlier stages succeeded |
| LegacyArticle.Analyze | main.py:70-95 | the main.py analysis is well formed, never recomputes the title, and reports `FETCH_ERROR` exactly on a `ClientError` |
| LegacyArticle.ResultDict | main.py:96-100 | the result has the keys `status`, `score` and `words_count`, plus `title` exactly when the title is truthy; `None` score and word count exactly when unset |
| LegacyArticle.ProcessArticle | main.py:70-100 | the method appends exactly one result, the analysis' result dictionary, on every exit path, and returns the stages it started, which are in statement order; its effect on `SANITIZERS` is as in the other variant |
| LegacyArticle.StatusCauses | main.py:77-95 | each status, in both directions: `FETCH_ERROR` iff `ClientError`; `PARSING_ERROR` iff the sanitizer rejects the page; `TIMEOUT` iff the deadline hits the fetch or the split; `OK` iff every stage succeeds |
| LegacyArticle.OkCountsSplitWords | main.py:80-84 | on success the word count is the number of split words and the score is their jaundice rate |
| LegacyArticle.AnalyzeIgnoresDvmnRegistration | main.py:53-57 | installing the `dvmn_org` identity never changes an analysis, so later tasks see the same sanitizers as the first |
| LegacyArticle.AgreesWithCurrentOnTitledArticles | main.py:70-95 | with a truthy title the main.py analysis equals the process_article.py one, whatever the title parsers |
| LegacyArticle.ResultLacksOnlyUrl | main.py:97-99 | with a truthy title the main.py result is the process_article.py result without its `url` key |
| Server.RequestUrls | server.py:18 | the URL list has at least one entry and one more than the commas of `urls`; it is `['']` when `urls` is absent |
| Server.Reject | server.py:19-23 | the handler answers 400 "too many" exactly for more than `MAX_URLS` URLs, 400 "too few" exactly for none, and nothing otherwise |
| Server.ToJson | server.py:36-39 | a response object has the keys `url`, `status`, `score` and `words_count`. `url` is the result's `title` (or `None`), `status` is the member's value (`None` when falsy), and score and word count are copied |
| Server.ResultFor | main.py:96-100 | the result of one URL always has a status, and it is an enum member |
| Server.ToJsonAll | server.py:35-41 | the `request_results` comprehension: one response object per result, in the same order, each the `ToJson` of its result |
| Server.RunAllAt | server.py:31-33 | the `i`-th result appended by the tasks run in turn is the `i`-th URL's |
| Server.RunAllSnoc | server.py:31-33 | running one more task appends its result after the others |
| Server.Handle | server.py:16-42 | more than `MAX_URLS` URLs give the "too many" 400 with `SANITIZERS` untouched. Otherwise the answer is 200 with one response object per URL, in request order, each from the analysis against the table as the request found it. `SANITIZERS` gains the `dvmn_org` entry exactly when some page was fetched |
| Server.RunTaskGroup | server.py:28-33 | every URL's task runs once against the shared table and appends its own result, in request order |
| Server.RunTask | server.py:32-33 | one task appends the URL's result, with the URL as title, whichever tasks ran before |
| Server.ResultsAsJson | server.py:35-41 | results that are the URLs' results, in order, turn into exactly the URLs' response objects |
| Server.ResultForAnyTable | server.py:29-33 | a URL's result is the same whether or not an earlier task installed the `dvmn_org` entry |
| Server.AnyFetchedStep | server.py:31-33 | some page among the first `i + 1` URLs was fetched exactly when one among the first `i` was, or URL `i`'s was |
| Server.TooFewNeverSent | server.py:18-23 | the "too few urls" 400 is unreachable, because splitting always yields a piece |
| Server.MissingUrlsGivesOneResponse | server.py:18-41 | a request without `urls` is accepted and answered with one object whose `url` is `None` |
| Server.ResponseFields | server.py:35-41 | every response object has exactly the four keys; its status is the value of a `ProcessingStatus` member and never `None`; its `url` is the requested URL, or `None` for an empty piece |
| Server.ResponseForFields | server.py:36-37 | a URL's response object carries the status value of its analysis, and as `url` the URL, or `None` when it is empty |
| Server.UrlLimit | server.py:18-20 | `MAX_URLS` comma-free URLs are accepted and eleven or more are rejected with 400 |

### Where the code's behaviour is modelled as written

- **Title parser failure.** In process_article.py, `get_titleparser(url)(html)` runs inside the same
  `try` block as the other stages. An `ArticleNotFound` it raises therefore gives
  `PARSING_ERROR`, and the title stays as passed (`Article.ParsingErrorCauses`).
  Title resolution is not a best-effort step that leaves the status alone.
- **Empty or missing `urls`.** `''.split(',')` is `['']`, so the "too few urls" check
  in server.py can never fire. A request without `urls`, or with it empty, is
  accepted and analyses the empty URL (`Server.TooFewNeverSent`,
  `Server.MissingUrlsGivesOneResponse`).
- **Response objects.** A response object holds `url`, `status`, `score` and
  `words_count`; there is no separate `title` key. Its `url` is the result's
  `title`, which main.py leaves out for the empty URL, so that `url` is `None`.
- **Result order.** The results list of both variants is in completion order; the
  model runs the tasks in request order (see below).

## Left out

- Networking. `fetch`, the aiohttp session and `raise_for_status` are one function
  from URL to page text, `ClientError` or deadline expiry. The same URL therefore
  always gives the same outcome, and so do the other parameter functions.
- The deadline. `async_timeout` can interrupt only an `await`, so the model lets it
  fire only in the fetch and in `split_by_words`. The deadline's duration
  (`ANALIZE_TIMEOUT`, the `analize_timeout` argument) and the clock are not modelled.
- `split_by_words`, the pymorphy2 analyzer and `calculate_jaundice_rate` are
  functions the model takes as parameters. text_tools is not part of this model, so
  the score's range, its rounding and the empty-text case are what that module makes
  of them.
- Floating point. The score is a Dafny `real` handed through unchanged.
- `urllib.parse.urlparse(url).hostname` is a parameter function. A URL without a
  hostname makes the code raise `AttributeError` on `None`; that case is not modelled.
- The site adapters `inosmi_ru.sanitize` and `inosmi_ru.get_title` are the
  constructor's parameters. adapters/inosmi_ru is not part of this model.
- Concurrency. The anyio task group of server.py and of `main()` runs its tasks
  concurrently, so results arrive in completion order. The model runs them one after
  the other in request order. The response therefore holds one object per URL, but
  in the real service its order is not guaranteed. The shared `SANITIZERS` write
  is idempotent (`Adapters.RegisterDvmnIdempotent`), so the interleaving cannot
  change any analysis.
- Exceptions other than the three caught ones. The `finally` block would still
  append a result with status `OK` before the exception propagates; the model assumes
  no other exception occurs.
- `timeit_context`, logging, `print`, `main()`, `make_app`, `server.main`, the test
  functions and the loading of the charged-word dictionaries. The charged words are
  a parameter set.
- JSON serialisation. `web.json_response` is modelled as a status code and the
  dictionaries it would serialise.
