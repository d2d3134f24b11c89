/** `process_article` of process_article.py: fetch one article, pick the host's
    sanitizer, sanitize, resolve a missing title with the host's title parser, split
    the text into words and score it; the first stage that fails decides the status,
    and a `finally` block appends exactly one result dictionary to `results`. */
module Article {
  import opened PyValues
  import opened Adapters
  import opened Pipeline

  /** The analysis `process_article` performs, given the state of the two adapter
      tables when it starts. */
  function Analyze(sanitizers: map<string, Adapter>, titleParsers: map<string, Adapter>,
                   env: Env, chargedWords: set<string>, url: string, title: Value): (e: Execution)
    requires InosmiKey in sanitizers && InosmiKey in titleParsers
    ensures WellFormed(e)
    // the first stage that fails decides the status
    ensures env.fetch(url).ClientError? <==> e.outcome.status == FetchError
    ensures Truthy(title) ==> e.outcome.title == title && !e.titleResolved
  {
    match env.fetch(url)
    case FetchTimeout => Execution(Outcome(Timeout, None, None, title), Fetch, false)
    case ClientError => Execution(Outcome(FetchError, None, None, title), Fetch, false)
    case Html(html) =>
      match SanitizerOf(sanitizers, env, url)(html)
      case ArticleNotFound => Execution(Outcome(ParsingError, None, None, title), Sanitize, false)
      case Parsed(text) =>
        var resolved: Option<Value> :=
          if Truthy(title) then Some(title)
          else match Lookup(titleParsers, env.hostname(url))(html)
               case Parsed(t) => Some(Str(t))
               case ArticleNotFound => None;
        match resolved
        case None => Execution(Outcome(ParsingError, None, None, title), ResolveTitle, true)
        case Some(title') =>
          match env.splitByWords(text)
          case SplitTimeout => Execution(Outcome(Timeout, None, None, title'), SplitWords, !Truthy(title))
          case Words(words) =>
            Execution(Outcome(Ok, Some(env.jaundiceRate(words, chargedWords)), Some(|words|), title'),
                      Score, !Truthy(title))
  }

  /** `dict(url=url, status=status, score=score, words_count=words_count, title=title)` */
  function ResultDict(url: string, o: Outcome): (d: Dict)
    ensures d.Keys == {"url", "status", "score", "words_count", "title"}
    ensures d["url"] == Str(url) && d["title"] == o.title
    ensures d["status"] == Member(o.status.Value())
    ensures d["score"] == NoneValue <==> o.score.None?
    ensures d["words_count"] == NoneValue <==> o.wordsCount.None?
  {
    map["url" := Str(url),
        "status" := Member(o.status.Value()),
        "score" := FromOptionalReal(o.score),
        "words_count" := FromOptionalNat(o.wordsCount),
        "title" := o.title]
  }

  /** `process_article(session, morph, charged_words, url, results, title)`: runs the
      stages one after the other, updating its locals as it goes, and appends one
      result on every exit path. The ghost result lists the stages it started. */
  method ProcessArticle(registry: Registry, env: Env, chargedWords: set<string>,
                        url: string, results: ResultList, title: Value)
    returns (ghost stages: seq<Stage>)
    requires registry.Valid()
    modifies registry`sanitizers, results
    ensures registry.Valid()
    ensures registry.sanitizers ==
              if env.fetch(url).Html? then RegisterDvmn(old(registry.sanitizers)) else old(registry.sanitizers)
    ensures var e := Analyze(old(registry.sanitizers), registry.titleParsers, env, chargedWords, url, title);
            results.items == old(results.items) + [ResultDict(url, e.outcome)] && stages == e.Stages()
    ensures InOrder(stages)
  {
    ghost var e := Analyze(registry.sanitizers, registry.titleParsers, env, chargedWords, url, title);
    var status := Ok;
    var wordsCount: Option<nat> := None;
    var score: Option<real> := None;
    var title' := title;
    ghost var last, titleResolved := Fetch, false;
    match env.fetch(url) {
      case FetchTimeout =>
        status := Timeout;
      case ClientError =>
        status := FetchError;
      case Html(html) =>
        last := PickSanitizer;
        var sanitize := registry.GetSanitizer(env.hostname(url));
        last := Sanitize;
        match sanitize(html) {
          case ArticleNotFound =>
            status := ParsingError;
          case Parsed(sanitizedArticle) =>
            // title = title or get_titleparser(url)(html)
            var titleFound := true;
            if !Truthy(title') {
              last, titleResolved := ResolveTitle, true;
              var getTitle := registry.TitleParserFor(env.hostname(url));
              match getTitle(html) {
                case ArticleNotFound =>
                  status := ParsingError;
                  titleFound := false;
                case Parsed(t) =>
                  title' := Str(t);
              }
            }
            if titleFound {
              last := SplitWords;
              match env.splitByWords(sanitizedArticle) {
                case SplitTimeout =>
                  status := Timeout;
                case Words(words) =>
                  last := Score;
                  score := Some(env.jaundiceRate(words, chargedWords));
                  wordsCount := Some(|words|);
              }
            }
        }
    }
    assert Outcome(status, score, wordsCount, title') == e.outcome && last == e.last && titleResolved == e.titleResolved;
    stages := Started(last, titleResolved);
    StartedInOrder(last, titleResolved);
    // finally:
    results.Append(ResultDict(url, Outcome(status, score, wordsCount, title')));
  }

  /** The test's 404 case: a `ClientError` from the fetch is reported as
      `FETCH_ERROR` with neither score nor word count, and the title as passed. */
  lemma ClientErrorIsFetchError(sanitizers: map<string, Adapter>, titleParsers: map<string, Adapter>,
                                env: Env, chargedWords: set<string>, url: string, title: Value)
    requires InosmiKey in sanitizers && InosmiKey in titleParsers
    requires env.fetch(url) == ClientError
    ensures var d := ResultDict(url, Analyze(sanitizers, titleParsers, env, chargedWords, url, title).outcome);
            d["status"] == Member("FETCH_ERROR") && d["score"] == NoneValue && d["words_count"] == NoneValue
            && d["title"] == title
  {
  }

  /** The test's unparsable page: a page the sanitizer rejects is reported as
      `PARSING_ERROR`, and the words are never split. */
  lemma ArticleNotFoundIsParsingError(sanitizers: map<string, Adapter>, titleParsers: map<string, Adapter>,
                                      env: Env, chargedWords: set<string>, url: string, title: Value)
    requires InosmiKey in sanitizers && InosmiKey in titleParsers
    requires env.fetch(url).Html?
    requires SanitizerOf(sanitizers, env, url)(env.fetch(url).html) == ArticleNotFound
    ensures var e := Analyze(sanitizers, titleParsers, env, chargedWords, url, title);
            var d := ResultDict(url, e.outcome);
            d["status"] == Member("PARSING_ERROR") && d["score"] == NoneValue && d["words_count"] == NoneValue
            && SplitWords !in e.Stages()
  {
  }

  /** The test's slow response: a deadline that expires during the fetch, or
      during word splitting after every earlier stage succeeded, is reported as
      `TIMEOUT`. */
  lemma DeadlineIsTimeout(sanitizers: map<string, Adapter>, titleParsers: map<string, Adapter>,
                          env: Env, chargedWords: set<string>, url: string, title: Value,
                          html: string, text: string)
    requires InosmiKey in sanitizers && InosmiKey in titleParsers
    requires env.fetch(url) == FetchTimeout ||
             (&& env.fetch(url) == Html(html)
              && SanitizerOf(sanitizers, env, url)(html) == Parsed(text)
              && (!Truthy(title) ==> Lookup(titleParsers, env.hostname(url))(html).Parsed?)
              && env.splitByWords(text) == SplitTimeout)
    ensures ResultDict(url, Analyze(sanitizers, titleParsers, env, chargedWords, url, title).outcome)["status"]
            == Member("TIMEOUT")
  {
  }

  /** The test's good page: when every stage succeeds the status is `OK`, the word
      count is the number of words split from the sanitized text and the score is
      their jaundice rate. */
  lemma AllStagesSucceedIsOk(sanitizers: map<string, Adapter>, titleParsers: map<string, Adapter>,
                             env: Env, chargedWords: set<string>, url: string, title: Value,
                             html: string, text: string, words: seq<string>)
    requires InosmiKey in sanitizers && InosmiKey in titleParsers
    requires env.fetch(url) == Html(html)
    requires SanitizerOf(sanitizers, env, url)(html) == Parsed(text)
    requires !Truthy(title) ==> Lookup(titleParsers, env.hostname(url))(html).Parsed?
    requires env.splitByWords(text) == Words(words)
    ensures var d := ResultDict(url, Analyze(sanitizers, titleParsers, env, chargedWords, url, title).outcome);
            d["status"] == Member("OK") && d["words_count"] == Int(|words|)
            && d["score"] == Float(env.jaundiceRate(words, chargedWords))
  {
  }

  /** `title = title or get_titleparser(url)(html)`: a truthy title is kept; a falsy
      one is replaced by what the host's title parser finds, once the page has been
      fetched and sanitized; when the parser raises, or an earlier stage fails, the
      title stays as passed. */
  lemma TitleResolution(sanitizers: map<string, Adapter>, titleParsers: map<string, Adapter>,
                        env: Env, chargedWords: set<string>, url: string, title: Value)
    requires InosmiKey in sanitizers && InosmiKey in titleParsers
    ensures var e := Analyze(sanitizers, titleParsers, env, chargedWords, url, title);
            var fetched := env.fetch(url);
            e.outcome.title ==
              if Truthy(title) || !fetched.Html? || !SanitizerOf(sanitizers, env, url)(fetched.html).Parsed? then title
              else match Lookup(titleParsers, env.hostname(url))(fetched.html)
                   case Parsed(t) => Str(t)
                   case ArticleNotFound => title
  {
  }

  /** The converse of the good page: an `OK` result means that every stage
      succeeded, and then its word count and score are those of the split words. */
  lemma OkMeansEveryStageSucceeded(sanitizers: map<string, Adapter>, titleParsers: map<string, Adapter>,
                                   env: Env, chargedWords: set<string>, url: string, title: Value)
    requires InosmiKey in sanitizers && InosmiKey in titleParsers
    requires Analyze(sanitizers, titleParsers, env, chargedWords, url, title).outcome.status == Ok
    ensures var o := Analyze(sanitizers, titleParsers, env, chargedWords, url, title).outcome;
            && env.fetch(url).Html?
            && var sanitized := SanitizerOf(sanitizers, env, url)(env.fetch(url).html);
            && sanitized.Parsed?
            && (!Truthy(title) ==> Lookup(titleParsers, env.hostname(url))(env.fetch(url).html).Parsed?)
            && env.splitByWords(sanitized.text).Words?
            && o.wordsCount == Some(|env.splitByWords(sanitized.text).words|)
            && o.score == Some(env.jaundiceRate(env.splitByWords(sanitized.text).words, chargedWords))
  {
  }

  /** The only causes of `PARSING_ERROR`: the sanitizer rejects the fetched page, or
      the title is missing and the title parser rejects the page. */
  lemma ParsingErrorCauses(sanitizers: map<string, Adapter>, titleParsers: map<string, Adapter>,
                           env: Env, chargedWords: set<string>, url: string, title: Value)
    requires InosmiKey in sanitizers && InosmiKey in titleParsers
    ensures var e := Analyze(sanitizers, titleParsers, env, chargedWords, url, title);
            e.outcome.status == ParsingError <==>
              && env.fetch(url).Html?
              && var html := env.fetch(url).html;
              (|| SanitizerOf(sanitizers, env, url)(html) == ArticleNotFound
               || (!Truthy(title) && Lookup(titleParsers, env.hostname(url))(html) == ArticleNotFound))
  {
  }

  /** The only causes of `TIMEOUT`: the deadline expires during one of the two
      awaited stages, the fetch or the word splitting. */
  lemma TimeoutCauses(sanitizers: map<string, Adapter>, titleParsers: map<string, Adapter>,
                      env: Env, chargedWords: set<string>, url: string, title: Value)
    requires InosmiKey in sanitizers && InosmiKey in titleParsers
    ensures var e := Analyze(sanitizers, titleParsers, env, chargedWords, url, title);
            e.outcome.status == Timeout <==>
              || env.fetch(url) == FetchTimeout
              || (&& env.fetch(url).Html?
                  && var html := env.fetch(url).html;
                  && SanitizerOf(sanitizers, env, url)(html).Parsed?
                  && (!Truthy(title) ==> Lookup(titleParsers, env.hostname(url))(html).Parsed?)
                  && env.splitByWords(SanitizerOf(sanitizers, env, url)(html).text) == SplitTimeout)
  {
  }
}
