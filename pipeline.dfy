/** What both variants of `process_article` share: the processing status, the
    stages of one article's analysis, the outcomes of the stages that are not part
    of this model (the network, the morphological splitter, the scorer), and the
    invariant every analysis keeps. */
module Pipeline {
  import opened PyValues
  import opened Adapters

  /** `ProcessingStatus` */
  datatype Status = Ok | FetchError | ParsingError | Timeout {
    /** The enum member's `.value`. */
    function Value(): (v: string)
      ensures StatusFromValue(v) == Some(this)
    {
      match this
      case Ok => "OK"
      case FetchError => "FETCH_ERROR"
      case ParsingError => "PARSING_ERROR"
      case Timeout => "TIMEOUT"
    }
  }

  /** `ProcessingStatus(v)`: the member whose value is `v`, if any. */
  function StatusFromValue(v: string): Option<Status>
  {
    if v == "OK" then Some(Ok)
    else if v == "FETCH_ERROR" then Some(FetchError)
    else if v == "PARSING_ERROR" then Some(ParsingError)
    else if v == "TIMEOUT" then Some(Timeout)
    else None
  }

  /** Distinct statuses have distinct values, so a status survives being written out
      as its value. */
  lemma StatusValueInjective(s1: Status, s2: Status)
    requires s1.Value() == s2.Value()
    ensures s1 == s2
  {
    assert StatusFromValue(s1.Value()) == Some(s1);
  }

  /** The stages of one analysis, in the only order they may run. */
  datatype Stage = Fetch | PickSanitizer | Sanitize | ResolveTitle | SplitWords | Score

  function Rank(s: Stage): nat
  {
    match s
    case Fetch => 0
    case PickSanitizer => 1
    case Sanitize => 2
    case ResolveTitle => 3
    case SplitWords => 4
    case Score => 5
  }

  /** Every stage starts after the one before it in the fixed order. */
  predicate InOrder(stages: seq<Stage>)
  {
    forall i :: 0 < i < |stages| ==> Rank(stages[i - 1]) < Rank(stages[i])
  }

  /** So no stage runs twice, and of any two stages the earlier in the order runs first. */
  lemma {:induction false} InOrderIsStrict(stages: seq<Stage>, i: nat, j: nat)
    requires InOrder(stages)
    requires i < j < |stages|
    ensures Rank(stages[i]) < Rank(stages[j])
    decreases j - i
  {
    if i + 1 < j {
      InOrderIsStrict(stages, i + 1, j);
    }
  }

  /** The stages an analysis has started when it stops during (or, for `Score`,
      after) the stage `last`: every stage up to `last` in the fixed order, where
      the optional title resolution counts only when `titleResolved`. */
  function Started(last: Stage, titleResolved: bool): (stages: seq<Stage>)
    requires last == ResolveTitle ==> titleResolved
    ensures |stages| > 0 && stages[0] == Fetch && stages[|stages| - 1] == last
  {
    match last
    case Fetch => [Fetch]
    case PickSanitizer => [Fetch, PickSanitizer]
    case Sanitize => [Fetch, PickSanitizer, Sanitize]
    case ResolveTitle => [Fetch, PickSanitizer, Sanitize, ResolveTitle]
    case SplitWords =>
      if titleResolved then [Fetch, PickSanitizer, Sanitize, ResolveTitle, SplitWords]
      else [Fetch, PickSanitizer, Sanitize, SplitWords]
    case Score =>
      if titleResolved then [Fetch, PickSanitizer, Sanitize, ResolveTitle, SplitWords, Score]
      else [Fetch, PickSanitizer, Sanitize, SplitWords, Score]
  }

  /** The started stages keep the fixed order. */
  lemma StartedInOrder(last: Stage, titleResolved: bool)
    requires last == ResolveTitle ==> titleResolved
    ensures InOrder(Started(last, titleResolved))
  {
  }

  /** A stage has started exactly when it does not come after `last`, title
      resolution only when the title parser ran. */
  lemma StartedMembers(last: Stage, titleResolved: bool)
    requires last == ResolveTitle ==> titleResolved
    ensures forall s :: s in Started(last, titleResolved) <==> Rank(s) <= Rank(last) && (s != ResolveTitle || titleResolved)
  {
  }

  /** `await fetch(session, url)`: the page text, a `ClientError` (a transport
      failure or the error status `raise_for_status` raises on), or the deadline
      expiring while the request is in flight. */
  datatype FetchOutcome = Html(html: string) | ClientError | FetchTimeout

  /** `await split_by_words(morph, text)`: the normalized words, or the deadline
      expiring while the splitter runs. */
  datatype SplitOutcome = Words(words: seq<string>) | SplitTimeout

  /** The collaborators of `process_article` that this model leaves abstract: the
      HTTP session, `urlparse(url).hostname`, `split_by_words` with its morphological
      analyzer, and `calculate_jaundice_rate`. */
  datatype Env = Env(
    fetch: string -> FetchOutcome,
    hostname: string -> string,
    splitByWords: string -> SplitOutcome,
    jaundiceRate: (seq<string>, set<string>) -> real)

  /** The sanitizer `get_sanitizer(url)` returns: the host's entry once the
      `dvmn_org` identity is installed. */
  function SanitizerOf(sanitizers: map<string, Adapter>, env: Env, url: string): (sanitize: Adapter)
    requires InosmiKey in sanitizers
    ensures HostKey(env.hostname(url)) == DvmnKey ==> sanitize == Identity
    ensures var key := HostKey(env.hostname(url));
            key != DvmnKey ==> sanitize == if key in sanitizers then sanitizers[key] else sanitizers[InosmiKey]
  {
    Lookup(RegisterDvmn(sanitizers), env.hostname(url))
  }

  /** The local variables `status`, `score`, `words_count` and `title` of
      `process_article` as they stand when its `finally` block runs. */
  datatype Outcome = Outcome(status: Status, score: Option<real>, wordsCount: Option<nat>, title: Value)

  /** One analysis: its outcome, the stage during which it stopped (`Score` when it
      ran to the end), and whether the title parser ran. */
  datatype Execution = Execution(outcome: Outcome, last: Stage, titleResolved: bool) {
    /** The stages this analysis started, in the order it started them. */
    function Stages(): seq<Stage>
      requires last == ResolveTitle ==> titleResolved
    {
      Started(last, titleResolved)
    }
  }

  /** What every analysis guarantees: the status starts at `OK` and only the except
      branches change it, so `score` and `words_count` are set exactly on the `OK`
      path, which is the path that ran through scoring; each failure status belongs
      to the stages that can raise it: a fetch error to the fetch, a parsing error to
      the sanitizer or the title parser, a timeout to the two awaited stages. */
  ghost predicate WellFormed(e: Execution)
  {
    var o := e.outcome;
    && (e.last == ResolveTitle ==> e.titleResolved)
    && (e.titleResolved ==> Rank(ResolveTitle) <= Rank(e.last))
    && (o.status == Ok <==> o.wordsCount.Some?)
    && (o.status == Ok <==> o.score.Some?)
    && (o.status == Ok <==> e.last == Score)
    && (o.status == FetchError ==> e.last == Fetch)
    && (o.status == ParsingError ==> e.last == Sanitize || e.last == ResolveTitle)
    && (o.status == Timeout ==> e.last == Fetch || e.last == SplitWords)
  }

  /** What the status says about the stages that ran: nothing after the fetch on a
      fetch error, no word splitting or scoring on a parsing error, and every stage
      but the optional title resolution on success. */
  lemma WellFormedStages(e: Execution)
    requires WellFormed(e)
    ensures e.outcome.status == FetchError ==> e.Stages() == [Fetch]
    ensures e.outcome.status == ParsingError ==> SplitWords !in e.Stages() && Score !in e.Stages()
    ensures e.outcome.status == Ok ==> forall s :: s != ResolveTitle ==> s in e.Stages()
    ensures e.outcome.status != Ok ==> Score !in e.Stages()
  {
    StartedMembers(e.last, e.titleResolved);
  }
}
