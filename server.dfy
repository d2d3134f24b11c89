/** `handle` of server.py: the `GET /` handler that splits the comma-separated `urls`
    query parameter, rejects more than `MAX_URLS` of them, analyses every URL with the
    main.py `process_article` (the URL doubling as the title) and answers with one
    JSON object per result. */
module Server {
  import opened PyValues
  import opened PyStr
  import opened Adapters
  import opened Pipeline
  import LegacyArticle

  /** `MAX_URLS` */
  const MaxUrls: nat := 10

  /** A JSON response body: an object or an array of objects. */
  datatype Body = JsonObject(fields: Dict) | JsonArray(items: seq<Dict>)

  /** `web.json_response(body, status=status)` */
  datatype Response = Response(status: int, body: Body)

  const TooManyUrls: Response :=
    Response(400, JsonObject(map["error" := Str("too many urls in request, should be 10 or less")]))

  const TooFewUrls: Response :=
    Response(400, JsonObject(map["error" := Str("too few urls in request, should be 1 or more")]))

  /** `request.query.get('urls', '').split(',')`: at least one piece, one more than
      the commas of the parameter, and the single empty piece when it is absent. */
  function RequestUrls(query: map<string, string>): (urls: seq<string>)
    ensures |urls| >= 1
    ensures "urls" in query ==> |urls| == Count(query["urls"], ',') + 1
    ensures "urls" !in query ==> urls == [""]
  {
    Split(if "urls" in query then query["urls"] else "", ',')
  }

  /** The two guards of `handle`: the rejection it answers with, if any. */
  function Reject(urls: seq<string>): (rejection: Option<Response>)
    ensures rejection == Some(TooManyUrls) <==> |urls| > MaxUrls
    ensures rejection == Some(TooFewUrls) <==> |urls| < 1
    ensures rejection.None? <==> 1 <= |urls| <= MaxUrls
  {
    assert TooManyUrls != TooFewUrls by {
      assert |TooManyUrls.body.fields["error"].s| != |TooFewUrls.body.fields["error"].s|;
    }
    if |urls| > MaxUrls then Some(TooManyUrls)
    else if |urls| < 1 then Some(TooFewUrls)
    else None
  }

  /** The response object `handle` builds from one result dictionary: its title
      becomes `url`, its status member becomes the member's value, and the score and
      word count are copied. `result['status'].value` is only defined for an enum
      member, so a truthy status must be one. */
  function ToJson(result: Dict): (json: Dict)
    requires "status" in result
    requires Truthy(result["status"]) ==> result["status"].Member?
    ensures json.Keys == {"url", "status", "score", "words_count"}
    ensures json["url"] == Get(result, "title")
    ensures json["status"] == if Truthy(result["status"]) then Str(result["status"].value) else NoneValue
    ensures json["score"] == Get(result, "score") && json["words_count"] == Get(result, "words_count")
  {
    map["url" := Get(result, "title"),
        "status" := if Truthy(Get(result, "status")) then Str(Get(result, "status").value) else NoneValue,
        "score" := Get(result, "score"),
        "words_count" := Get(result, "words_count")]
  }

  /** Every result has a status, an enum member when truthy, as `ToJson` needs. */
  predicate HaveStatuses(results: seq<Dict>)
  {
    forall i :: 0 <= i < |results| ==>
      "status" in results[i] && (Truthy(results[i]["status"]) ==> results[i]["status"].Member?)
  }

  /** The `request_results` comprehension over the collected results. */
  function ToJsonAll(results: seq<Dict>): (json: seq<Dict>)
    requires HaveStatuses(results)
    ensures |json| == |results|
    ensures forall i :: 0 <= i < |results| ==> json[i] == ToJson(results[i])
  {
    seq(|results|, i requires 0 <= i < |results| => ToJson(results[i]))
  }

  /** The result `process_article(..., url, url, ...)` appends for one URL, given the
      sanitizer table `handle` started with. */
  function ResultFor(sanitizers: map<string, Adapter>, env: Env, chargedWords: set<string>, url: string): (d: Dict)
    requires InosmiKey in sanitizers
    ensures "status" in d && d["status"].Member?
  {
    LegacyArticle.ResultDict(Str(url), LegacyArticle.Analyze(sanitizers, env, chargedWords, url, Str(url)).outcome)
  }

  /** What the tasks for `urls` leave in the shared results list when they run one
      after the other, each appending `task(url)`. */
  function RunAll(task: string -> Dict, urls: seq<string>): seq<Dict>
  {
    if urls == [] then []
    else RunAll(task, urls[..|urls| - 1]) + [task(urls[|urls| - 1])]
  }

  /** The `i`-th result is the one of the `i`-th URL's task. */
  lemma {:induction false} RunAllAt(task: string -> Dict, urls: seq<string>)
    ensures |RunAll(task, urls)| == |urls|
    ensures forall i :: 0 <= i < |urls| ==> RunAll(task, urls)[i] == task(urls[i])
  {
    if urls != [] {
      RunAllAt(task, urls[..|urls| - 1]);
    }
  }

  /** Running the task of one more URL appends its result. */
  lemma RunAllSnoc(task: string -> Dict, urls: seq<string>, i: nat)
    requires i < |urls|
    ensures RunAll(task, urls[..i + 1]) == RunAll(task, urls[..i]) + [task(urls[i])]
  {
    assert urls[..i + 1][..i] == urls[..i];
  }

  /** The response objects for the URLs of an accepted request, in request order. */
  function Responses(sanitizers: map<string, Adapter>, env: Env, chargedWords: set<string>,
                     urls: seq<string>): (json: seq<Dict>)
    requires InosmiKey in sanitizers
    ensures |json| == |urls|
    ensures forall i :: 0 <= i < |urls| ==> json[i] == ToJson(ResultFor(sanitizers, env, chargedWords, urls[i]))
  {
    seq(|urls|, i requires 0 <= i < |urls| => ToJson(ResultFor(sanitizers, env, chargedWords, urls[i])))
  }

  /** Whether some URL's page was fetched, which is when `get_sanitizer` runs. */
  predicate AnyFetched(env: Env, urls: seq<string>)
  {
    exists i :: 0 <= i < |urls| && env.fetch(urls[i]).Html?
  }

  /** `handle(request)` given the request's query parameters. The task group's tasks
      run here one after the other, in request order. */
  method Handle(query: map<string, string>, registry: Registry, env: Env, chargedWords: set<string>)
    returns (response: Response)
    requires registry.Valid()
    modifies registry`sanitizers
    ensures registry.Valid()
    ensures var urls := RequestUrls(query);
            |urls| > MaxUrls ==> response == TooManyUrls && registry.sanitizers == old(registry.sanitizers)
    ensures var urls := RequestUrls(query);
            |urls| <= MaxUrls ==>
              && response == Response(200, JsonArray(Responses(old(registry.sanitizers), env, chargedWords, urls)))
              && registry.sanitizers ==
                   if AnyFetched(env, urls) then RegisterDvmn(old(registry.sanitizers)) else old(registry.sanitizers)
  {
    var urls := RequestUrls(query);
    var rejection := Reject(urls);
    if rejection.Some? {
      return rejection.value;
    }
    var processResults := RunTaskGroup(registry, env, chargedWords, urls);
    ResultsAsJson(old(registry.sanitizers), env, chargedWords, urls, processResults);
    response := Response(200, JsonArray(ToJsonAll(processResults)));
  }

  /** The task group of `handle`: one `process_article` task per URL, all appending
      to one `process_results` list, here run one after the other in request order. */
  method RunTaskGroup(registry: Registry, env: Env, chargedWords: set<string>, urls: seq<string>)
    returns (processResults: seq<Dict>)
    requires registry.Valid()
    modifies registry`sanitizers
    ensures registry.Valid()
    ensures registry.sanitizers ==
              if AnyFetched(env, urls) then RegisterDvmn(old(registry.sanitizers)) else old(registry.sanitizers)
    ensures |processResults| == |urls|
    ensures forall i :: 0 <= i < |urls| ==>
              processResults[i] == ResultFor(old(registry.sanitizers), env, chargedWords, urls[i])
  {
    ghost var initial := registry.sanitizers;
    ghost var task: string -> Dict := url => ResultFor(initial, env, chargedWords, url);
    var results := new ResultList();
    var i := 0;
    while i < |urls|
      invariant 0 <= i <= |urls|
      invariant registry.Valid()
      invariant registry.sanitizers == if AnyFetched(env, urls[..i]) then RegisterDvmn(initial) else initial
      invariant results.items == RunAll(task, urls[..i])
    {
      var url := urls[i];
      RunTask(registry, env, chargedWords, url, results, initial);
      AnyFetchedStep(env, urls, i);
      RunAllSnoc(task, urls, i);
      i := i + 1;
    }
    assert urls[..i] == urls;
    RunAllAt(task, urls);
    processResults := results.items;
  }

  /** Results that are those of the URLs, in order, turn into the URLs' response
      objects. */
  lemma ResultsAsJson(sanitizers: map<string, Adapter>, env: Env, chargedWords: set<string>,
                      urls: seq<string>, results: seq<Dict>)
    requires InosmiKey in sanitizers
    requires |results| == |urls|
    requires forall i :: 0 <= i < |urls| ==> results[i] == ResultFor(sanitizers, env, chargedWords, urls[i])
    ensures HaveStatuses(results)
    ensures ToJsonAll(results) == Responses(sanitizers, env, chargedWords, urls)
  {
  }

  /** One task of the task group, `process_article(session, morph, charged_words,
      url, title, process_results)` with `title = url`, run against the sanitizer
      table as the earlier tasks left it. */
  method RunTask(registry: Registry, env: Env, chargedWords: set<string>, url: string,
                 results: ResultList, ghost initial: map<string, Adapter>)
    requires registry.Valid() && InosmiKey in initial
    requires registry.sanitizers == initial || registry.sanitizers == RegisterDvmn(initial)
    modifies registry`sanitizers, results
    ensures registry.Valid()
    ensures registry.sanitizers == if env.fetch(url).Html? then RegisterDvmn(initial) else old(registry.sanitizers)
    ensures results.items == old(results.items) + [ResultFor(initial, env, chargedWords, url)]
  {
    ghost var before := registry.sanitizers;
    var title := Str(url);
    ghost var stages := LegacyArticle.ProcessArticle(registry, env, chargedWords, url, title, results);
    ResultForAnyTable(before, initial, env, chargedWords, url);
    RegisterDvmnIdempotent(initial);
  }

  /** What `process_article` appends for a URL is the same whether or not an earlier
      task has installed the `dvmn_org` identity. */
  lemma ResultForAnyTable(table: map<string, Adapter>, initial: map<string, Adapter>,
                          env: Env, chargedWords: set<string>, url: string)
    requires InosmiKey in initial
    requires table == initial || table == RegisterDvmn(initial)
    ensures InosmiKey in table
    ensures LegacyArticle.ResultDict(Str(url), LegacyArticle.Analyze(table, env, chargedWords, url, Str(url)).outcome)
            == ResultFor(initial, env, chargedWords, url)
  {
    LegacyArticle.AnalyzeIgnoresDvmnRegistration(initial, env, chargedWords, url, Str(url));
  }

  /** Some page among the first `i + 1` URLs was fetched when one was among the first
      `i`, or the page of URL `i` was. */
  lemma AnyFetchedStep(env: Env, urls: seq<string>, i: nat)
    requires i < |urls|
    ensures AnyFetched(env, urls[..i + 1]) <==> AnyFetched(env, urls[..i]) || env.fetch(urls[i]).Html?
  {
    if env.fetch(urls[i]).Html? {
      assert urls[..i + 1][i] == urls[i];
    }
    if AnyFetched(env, urls[..i]) {
      var k :| 0 <= k < i && env.fetch(urls[..i][k]).Html?;
      assert urls[..i + 1][k] == urls[..i][k];
    }
  }

  /** The guard against too few URLs never fires: splitting always yields a piece,
      so a request without `urls`, or with it empty, is accepted. */
  lemma TooFewNeverSent(query: map<string, string>)
    ensures Reject(RequestUrls(query)) != Some(TooFewUrls)
  {
  }

  /** A request without `urls` is answered with a single response object, for the
      empty URL, whose `url` is `None` because the empty title is left out of the
      result. */
  lemma MissingUrlsGivesOneResponse(sanitizers: map<string, Adapter>, env: Env, chargedWords: set<string>,
                                    query: map<string, string>)
    requires InosmiKey in sanitizers
    requires "urls" !in query
    ensures Reject(RequestUrls(query)).None?
    ensures var json := Responses(sanitizers, env, chargedWords, RequestUrls(query));
            |json| == 1 && json[0]["url"] == NoneValue
  {
  }

  /** Every response object of an accepted request carries exactly the four keys, the
      status as the value of a `ProcessingStatus` member (never `None`), and as `url`
      the requested URL, or `None` for an empty piece. */
  lemma ResponseFields(sanitizers: map<string, Adapter>, env: Env, chargedWords: set<string>,
                       urls: seq<string>, i: nat)
    requires InosmiKey in sanitizers
    requires i < |urls|
    ensures var json := Responses(sanitizers, env, chargedWords, urls)[i];
            var status := LegacyArticle.Analyze(sanitizers, env, chargedWords, urls[i], Str(urls[i])).outcome.status;
            && json.Keys == {"url", "status", "score", "words_count"}
            && json["status"] == Str(status.Value())
            && json["url"] == if urls[i] == "" then NoneValue else Str(urls[i])
  {
    ResponseForFields(sanitizers, env, chargedWords, urls[i]);
  }

  /** The response object of one URL: its status and its `url`. */
  lemma ResponseForFields(sanitizers: map<string, Adapter>, env: Env, chargedWords: set<string>, url: string)
    requires InosmiKey in sanitizers
    ensures var json := ToJson(ResultFor(sanitizers, env, chargedWords, url));
            var status := LegacyArticle.Analyze(sanitizers, env, chargedWords, url, Str(url)).outcome.status;
            && json["status"] == Str(status.Value())
            && json["url"] == if url == "" then NoneValue else Str(url)
  {
  }

  /** `MAX_URLS` comma-free URLs are accepted, one more is rejected with 400. */
  lemma {:induction false} UrlLimit(query: map<string, string>, urls: seq<string>)
    requires |urls| > 0
    requires forall i :: 0 <= i < |urls| ==> ',' !in urls[i]
    requires "urls" in query && query["urls"] == Join(urls, ',')
    ensures RequestUrls(query) == urls
    ensures Reject(RequestUrls(query)) == if |urls| > MaxUrls then Some(TooManyUrls) else None
  {
    SplitJoin(urls, ',');
  }
}
