/** `process_article` of main.py, the variant the HTTP server runs: the same stages
    without title resolution, so the title is always the one passed in, and a result
    dictionary without the URL that carries the title only when it is truthy. */
module LegacyArticle {
  import opened PyValues
  import opened Adapters
  import opened Pipeline
  import Article

  /** The analysis this `process_article` performs, given the sanitizer table when it
      starts. */
  function Analyze(sanitizers: map<string, Adapter>, env: Env, chargedWords: set<string>,
                   url: string, title: Value): (e: Execution)
    requires InosmiKey in sanitizers
    ensures WellFormed(e)
    // the title is never recomputed
    ensures e.outcome.title == title && !e.titleResolved
    ensures env.fetch(url).ClientError? <==> e.outcome.status == FetchError
  {
    match env.fetch(url)
    case FetchTimeout => Execution(Outcome(Timeout, None, None, title), Fetch, false)
    case ClientError => Execution(Outcome(FetchError, None, None, title), Fetch, false)
    case Html(html) =>
      match SanitizerOf(sanitizers, env, url)(html)
      case ArticleNotFound => Execution(Outcome(ParsingError, None, None, title), Sanitize, false)
      case Parsed(text) =>
        match env.splitByWords(text)
        case SplitTimeout => Execution(Outcome(Timeout, None, None, title), SplitWords, false)
        case Words(words) =>
          Execution(Outcome(Ok, Some(env.jaundiceRate(words, chargedWords)), Some(|words|), title), Score, false)
  }

  /** `dict(status=status, score=score, words_count=words_count)`, with `title` added
      only when the title is truthy. */
  function ResultDict(title: Value, o: Outcome): (d: Dict)
    ensures d.Keys == {"status", "score", "words_count"} + (if Truthy(title) then {"title"} else {})
    ensures d["status"] == Member(o.status.Value())
    ensures d["score"] == NoneValue <==> o.score.None?
    ensures d["words_count"] == NoneValue <==> o.wordsCount.None?
    ensures Get(d, "title") == if Truthy(title) then title else NoneValue
  {
    var result := map["status" := Member(o.status.Value()),
                      "score" := FromOptionalReal(o.score),
                      "words_count" := FromOptionalNat(o.wordsCount)];
    if Truthy(title) then result["title" := title] else result
  }

  /** `process_article(session, morph, charged_words, url, title, results)`: the
      stages one after the other, and exactly one result appended on every exit path.
      The ghost result lists the stages it started. */
  method ProcessArticle(registry: Registry, env: Env, chargedWords: set<string>,
                        url: string, title: Value, results: ResultList)
    returns (ghost stages: seq<Stage>)
    requires registry.Valid()
    modifies registry`sanitizers, results
    ensures registry.Valid()
    ensures registry.sanitizers ==
              if env.fetch(url).Html? then RegisterDvmn(old(registry.sanitizers)) else old(registry.sanitizers)
    ensures var e := Analyze(old(registry.sanitizers), env, chargedWords, url, title);
            results.items == old(results.items) + [ResultDict(title, e.outcome)] && stages == e.Stages()
    ensures InOrder(stages)
  {
    ghost var e := Analyze(registry.sanitizers, env, chargedWords, url, title);
    var status := Ok;
    var wordsCount: Option<nat> := None;
    var score: Option<real> := None;
    ghost var last := Fetch;
    match env.fetch(url) {
      case FetchTimeout =>
        status := Timeout;
      case ClientError =>
        status := FetchError;
      case Html(html) =>
        last := PickSanitizer;
        var sanitize := registry.GetSanitizer(env.hostname(url));
        last := Sanitize;
        match sanitize(html) {
          case ArticleNotFound =>
            status := ParsingError;
          case Parsed(sanitizedArticle) =>
            last := SplitWords;
            match env.splitByWords(sanitizedArticle) {
              case SplitTimeout =>
                status := Timeout;
              case Words(words) =>
                last := Score;
                score := Some(env.jaundiceRate(words, chargedWords));
                wordsCount := Some(|words|);
            }
        }
    }
    assert Outcome(status, score, wordsCount, title) == e.outcome && last == e.last;
    stages := Started(last, false);
    StartedInOrder(last, false);
    // finally:
    results.Append(ResultDict(title, Outcome(status, score, wordsCount, title)));
  }

  /** Which stage decides the status: a `ClientError` from the fetch gives
      `FETCH_ERROR`, a deadline during the fetch or the word splitting gives `TIMEOUT`,
      a page the sanitizer rejects gives `PARSING_ERROR`, and `OK` exactly when every
      stage succeeds. */
  lemma StatusCauses(sanitizers: map<string, Adapter>, env: Env, chargedWords: set<string>,
                     url: string, title: Value)
    requires InosmiKey in sanitizers
    ensures var status := Analyze(sanitizers, env, chargedWords, url, title).outcome.status;
            var fetched := env.fetch(url);
            && (status == FetchError <==> fetched == ClientError)
            && (status == ParsingError <==>
                  fetched.Html? && SanitizerOf(sanitizers, env, url)(fetched.html) == ArticleNotFound)
            && (status == Timeout <==>
                  || fetched == FetchTimeout
                  || (&& fetched.Html?
                      && SanitizerOf(sanitizers, env, url)(fetched.html).Parsed?
                      && env.splitByWords(SanitizerOf(sanitizers, env, url)(fetched.html).text) == SplitTimeout))
            && (status == Ok <==>
                  && fetched.Html?
                  && SanitizerOf(sanitizers, env, url)(fetched.html).Parsed?
                  && env.splitByWords(SanitizerOf(sanitizers, env, url)(fetched.html).text).Words?)
  {
  }

  /** On success the word count and the score are those of the split words. */
  lemma OkCountsSplitWords(sanitizers: map<string, Adapter>, env: Env, chargedWords: set<string>,
                           url: string, title: Value, html: string, text: string, words: seq<string>)
    requires InosmiKey in sanitizers
    requires env.fetch(url) == Html(html)
    requires SanitizerOf(sanitizers, env, url)(html) == Parsed(text)
    requires env.splitByWords(text) == Words(words)
    ensures var d := ResultDict(title, Analyze(sanitizers, env, chargedWords, url, title).outcome);
            d["status"] == Member("OK") && d["words_count"] == Int(|words|)
            && d["score"] == Float(env.jaundiceRate(words, chargedWords))
  {
  }

  /** Installing the `dvmn_org` identity does not change any analysis, so the
      articles of one request may run in any order against the shared table. */
  lemma AnalyzeIgnoresDvmnRegistration(sanitizers: map<string, Adapter>, env: Env, chargedWords: set<string>,
                                       url: string, title: Value)
    requires InosmiKey in sanitizers
    ensures InosmiKey in RegisterDvmn(sanitizers)
    ensures Analyze(RegisterDvmn(sanitizers), env, chargedWords, url, title)
            == Analyze(sanitizers, env, chargedWords, url, title)
  {
    RegisterDvmnIdempotent(sanitizers);
  }

  /** With a truthy title the two variants of `process_article` analyse an article
      alike, whatever the title parsers. */
  lemma AgreesWithCurrentOnTitledArticles(sanitizers: map<string, Adapter>, titleParsers: map<string, Adapter>,
                                          env: Env, chargedWords: set<string>, url: string, title: Value)
    requires InosmiKey in sanitizers && InosmiKey in titleParsers
    requires Truthy(title)
    ensures Analyze(sanitizers, env, chargedWords, url, title)
            == Article.Analyze(sanitizers, titleParsers, env, chargedWords, url, title)
  {
  }

  /** With a truthy title the two result dictionaries differ only in the `url` key. */
  lemma ResultLacksOnlyUrl(url: string, title: Value, o: Outcome)
    requires Truthy(title) && o.title == title
    ensures ResultDict(title, o) == Article.ResultDict(url, o) - {"url"}
  {
    var legacy, current := ResultDict(title, o), Article.ResultDict(url, o) - {"url"};
    assert legacy.Keys == current.Keys;
  }
}
