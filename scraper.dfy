/**
 * The scraper object: it spaces its requests at least half a second apart,
 * retries a failed request with growing pauses, reads search and detail pages
 * through the extraction functions, and records each end-to-end lookup in its
 * search history.
 *
 * Time is an integer clock in milliseconds that only the scraper's own sleeps
 * and the duration of each request advance. The network is a fixed function
 * from a request and the number of requests sent before it to what that
 * request produced, so a run is determined by the scraper's state.
 */
module Scraper {
  import opened Wrappers
  import Text
  import opened Json
  import opened Models
  import opened Extraction
  import History
  import Sorting

  const MaxRetries: int := 3
  const RetryDelayMs: nat := 1000
  const MinRequestDelayMs: nat := 500

  /** The page a request asks for; building and percent-encoding the URL is not modelled. */
  datatype Request = SearchPage(query: string) | TitlePage(id: string)

  /** What a GET produced. */
  datatype Reply =
    | Html(page: Page)    // a successful response whose content type is HTML, parsed
    | NotHtml             // a successful response of another content type
    | RequestError        // a connection error, a timeout or an error status
    | OtherError          // any other exception

  /** A reply and how many milliseconds the request took. */
  datatype Exchange = Exchange(reply: Reply, took: nat)

  /** The page a sequence of attempts obtained, how many requests it sent in all, and the pauses between them. */
  datatype Fetched = Fetched(page: Option<Page>, requests: nat, delays: seq<nat>)

  /** The pause before the next request, given the time since the previous one started. */
  function RateLimitWait(elapsed: int): (w: nat)
    ensures elapsed + w >= MinRequestDelayMs
    ensures elapsed >= MinRequestDelayMs ==> w == 0
    ensures w > 0 ==> elapsed + w == MinRequestDelayMs
  {
    if elapsed < MinRequestDelayMs then MinRequestDelayMs - elapsed else 0
  }

  /**
   * The retry loop from attempt `attempt` on, where the attempt numbered `k`
   * sends the request numbered `first + k`. Only a request error is retried,
   * and not after the last attempt; the pause after attempt `k` is `k + 1` seconds.
   */
  function Fetch(network: (Request, nat) -> Exchange, request: Request, first: nat, attempt: nat, maxRetries: int): (f: Fetched)
    ensures attempt < maxRetries ==> attempt < f.requests <= maxRetries
    ensures attempt >= maxRetries ==> f == Fetched(None, attempt, [])
    decreases if attempt < maxRetries then maxRetries - attempt else 0
  {
    if attempt >= maxRetries then Fetched(None, attempt, [])
    else
      match network(request, first + attempt).reply
      case Html(p) => Fetched(Some(p), attempt + 1, [])
      case RequestError =>
        if attempt < maxRetries - 1 then
          var rest := Fetch(network, request, first, attempt + 1, maxRetries);
          Fetched(rest.page, rest.requests, [RetryDelayMs * (attempt + 1)] + rest.delays)
        else Fetched(None, attempt + 1, [])
      case _ => Fetched(None, attempt + 1, [])
  }

  /**
   * Every attempt but the last met a request error and was followed by a
   * pause one second longer than the one before; a page is the last reply,
   * and the last reply, if it is a page, is the result.
   */
  lemma {:induction false} FetchShape(network: (Request, nat) -> Exchange, request: Request, first: nat, attempt: nat, maxRetries: int)
    ensures var f := Fetch(network, request, first, attempt, maxRetries);
      && (f.requests > attempt ==> |f.delays| == f.requests - attempt - 1)
      && (forall i :: 0 <= i < |f.delays| ==> f.delays[i] == RetryDelayMs * (attempt + i + 1))
      && (forall n :: first + attempt <= n < first + f.requests - 1 ==> network(request, n).reply.RequestError?)
      && (f.page.Some? ==> f.requests > attempt && network(request, first + f.requests - 1).reply == Html(f.page.value))
      && (f.requests > attempt && network(request, first + f.requests - 1).reply.Html? ==>
            f.page == Some(network(request, first + f.requests - 1).reply.page))
    decreases if attempt < maxRetries then maxRetries - attempt else 0
  {
    var f := Fetch(network, request, first, attempt, maxRetries);
    if attempt < maxRetries - 1 && network(request, first + attempt).reply.RequestError? {
      FetchShape(network, request, first, attempt + 1, maxRetries);
      var rest := Fetch(network, request, first, attempt + 1, maxRetries);
      assert f.delays == [RetryDelayMs * (attempt + 1)] + rest.delays;
      forall i | 0 <= i < |f.delays|
        ensures f.delays[i] == RetryDelayMs * (attempt + i + 1)
      {
        if i > 0 {
          assert f.delays[i] == rest.delays[i - 1];
        }
      }
    }
  }

  /** The outcome of later attempts, preceded by the pauses `pauses` taken before them. */
  function After(pauses: seq<nat>, f: Fetched): Fetched {
    Fetched(f.page, f.requests, pauses + f.delays)
  }

  /** One attempt of the retry loop, in the terms the loop keeps. */
  lemma FetchAdvance(network: (Request, nat) -> Exchange, request: Request, first: nat, attempt: nat, maxRetries: int,
                     whole: Fetched, pauses: seq<nat>)
    requires attempt < maxRetries
    requires whole == After(pauses, Fetch(network, request, first, attempt, maxRetries))
    ensures network(request, first + attempt).reply.Html? ==>
      whole == Fetched(Some(network(request, first + attempt).reply.page), attempt + 1, pauses)
    ensures !network(request, first + attempt).reply.Html? && !network(request, first + attempt).reply.RequestError? ==>
      whole == Fetched(None, attempt + 1, pauses)
    ensures network(request, first + attempt).reply.RequestError? && attempt == maxRetries - 1 ==>
      whole == Fetched(None, attempt + 1, pauses)
    ensures network(request, first + attempt).reply.RequestError? && attempt < maxRetries - 1 ==>
      whole == After(pauses + [RetryDelayMs * (attempt + 1)], Fetch(network, request, first, attempt + 1, maxRetries))
  {
    if network(request, first + attempt).reply.RequestError? && attempt < maxRetries - 1 {
      var rest := Fetch(network, request, first, attempt + 1, maxRetries);
      assert pauses + ([RetryDelayMs * (attempt + 1)] + rest.delays) == (pauses + [RetryDelayMs * (attempt + 1)]) + rest.delays;
    }
  }

  /** Two request errors and then a page: three requests, with pauses of one and then two seconds. */
  lemma RetryThenSucceed(network: (Request, nat) -> Exchange, request: Request, first: nat, p: Page)
    requires network(request, first).reply == RequestError
    requires network(request, first + 1).reply == RequestError
    requires network(request, first + 2).reply == Html(p)
    ensures Fetch(network, request, first, 0, MaxRetries) == Fetched(Some(p), 3, [1000, 2000])
  {
    assert Fetch(network, request, first, 2, MaxRetries) == Fetched(Some(p), 3, []);
  }

  /** Request errors on every attempt: three requests, then nothing. */
  lemma AllAttemptsFail(network: (Request, nat) -> Exchange, request: Request, first: nat)
    requires forall n :: first <= n < first + 3 ==> network(request, n).reply == RequestError
    ensures Fetch(network, request, first, 0, MaxRetries) == Fetched(None, 3, [1000, 2000])
  {
    assert network(request, first + 2).reply == RequestError;
    assert Fetch(network, request, first, 2, MaxRetries) == Fetched(None, 3, []);
    assert network(request, first + 1).reply == RequestError;
    assert network(request, first + 0).reply == RequestError;
  }

  /** A response that is not HTML, or an unexpected error, is never retried. */
  lemma NoRetryUnlessRequestError(network: (Request, nat) -> Exchange, request: Request, first: nat, maxRetries: int)
    requires maxRetries > 0
    requires network(request, first).reply == NotHtml || network(request, first).reply == OtherError
    ensures Fetch(network, request, first, 0, maxRetries) == Fetched(None, 1, [])
  {
  }

  // ---------------------------------------------------------------------------
  // Gathering search results (the loops of the search)
  // ---------------------------------------------------------------------------

  /** One step of the item loop. */
  lemma ItemsStep(items: seq<JVal>, i: nat, query: string)
    requires i < |items|
    ensures ItemResult(items[i], query).Failure? ==>
      ItemsHarvest(items[i..], query) == Harvest([], StopFor(ItemResult(items[i], query).error))
    ensures ItemResult(items[i], query).Success? ==>
      var r := ItemResult(items[i], query).value;
      var rest := ItemsHarvest(items[i + 1..], query);
      ItemsHarvest(items[i..], query) == Harvest((if r.Some? then [r.value] else []) + rest.found, rest.stop)
  {
    assert items[i..][0] == items[i] && items[i..][1..] == items[i + 1..];
  }

  /** A loop that keeps `found` before the harvest of what remains may move `kept` into `found`. */
  lemma Regroup(whole: Harvest, tail: Harvest, next: Harvest, found: seq<SearchResult>, kept: seq<SearchResult>)
    requires whole == Harvest(found + tail.found, tail.stop)
    requires tail == Harvest(kept + next.found, next.stop)
    ensures whole == Harvest((found + kept) + next.found, next.stop)
  {
    assert found + (kept + next.found) == (found + kept) + next.found;
  }

  /** The item loop of one script block. */
  method HarvestItems(items: seq<JVal>, query: string) returns (h: Harvest)
    ensures h == ItemsHarvest(items, query)
  {
    var found: seq<SearchResult> := [];
    var i := 0;
    while i < |items|
      invariant 0 <= i <= |items|
      invariant ItemsHarvest(items, query)
                == Harvest(found + ItemsHarvest(items[i..], query).found, ItemsHarvest(items[i..], query).stop)
    {
      var r := ItemResult(items[i], query);
      ItemsStep(items, i, query);
      ghost var tail := ItemsHarvest(items[i..], query);
      if r.Failure? {
        assert tail == Harvest([], StopFor(r.error));
        return Harvest(found, StopFor(r.error));
      }
      var kept := if r.value.Some? then [r.value.value] else [];
      ghost var next := ItemsHarvest(items[i + 1..], query);
      assert tail == Harvest(kept + next.found, next.stop);
      Regroup(ItemsHarvest(items, query), tail, next, found, kept);
      found := found + kept;
      i := i + 1;
    }
    h := Harvest(found, Finished);
  }

  /** One script block of the search page. */
  method HarvestBlock(b: Block, query: string, maxResults: int) returns (h: Harvest)
    ensures h == BlockHarvest(b, query, maxResults)
  {
    match b
    case Unreadable =>
      h := Harvest([], Finished);
    case Decoded(data) =>
      var results := Dig(data, ResultsPath, JArr([]));
      if results.Failure? {
        return Harvest([], StopFor(results.error));
      }
      var items := Slice(results.value, maxResults);
      if items.Failure? {
        return Harvest([], StopFor(items.error));
      }
      h := HarvestItems(items.value, query);
  }

  /** One step of the block loop. */
  lemma BlocksStep(blocks: seq<Block>, b: nat, query: string, maxResults: int)
    requires b < |blocks|
    ensures BlockHarvest(blocks[b], query, maxResults).stop == Escaped ==>
      StructuredHarvest(blocks[b..], query, maxResults) == BlockHarvest(blocks[b], query, maxResults)
    ensures BlockHarvest(blocks[b], query, maxResults).stop != Escaped ==>
      StructuredHarvest(blocks[b..], query, maxResults)
      == Harvest(BlockHarvest(blocks[b], query, maxResults).found + StructuredHarvest(blocks[b + 1..], query, maxResults).found,
                 StructuredHarvest(blocks[b + 1..], query, maxResults).stop)
  {
    assert blocks[b..][0] == blocks[b] && blocks[b..][1..] == blocks[b + 1..];
  }

  /** The structured pass: each script block in turn, until one raises an exception that escapes. */
  method StructuredPass(blocks: seq<Block>, query: string, maxResults: int) returns (h: Harvest)
    ensures h == StructuredHarvest(blocks, query, maxResults)
  {
    var found: seq<SearchResult> := [];
    var b := 0;
    while b < |blocks|
      invariant 0 <= b <= |blocks|
      invariant StructuredHarvest(blocks, query, maxResults)
                == Harvest(found + StructuredHarvest(blocks[b..], query, maxResults).found,
                           StructuredHarvest(blocks[b..], query, maxResults).stop)
    {
      var block := HarvestBlock(blocks[b], query, maxResults);
      BlocksStep(blocks, b, query, maxResults);
      ghost var tail := StructuredHarvest(blocks[b..], query, maxResults);
      if block.stop == Escaped {
        assert tail == block;
        return Harvest(found + block.found, Escaped);
      }
      ghost var next := StructuredHarvest(blocks[b + 1..], query, maxResults);
      assert tail == Harvest(block.found + next.found, next.stop);
      Regroup(StructuredHarvest(blocks, query, maxResults), tail, next, found, block.found);
      found := found + block.found;
      b := b + 1;
    }
    h := Harvest(found, Finished);
  }

  /** The markup loop's invariant carries over one element. */
  lemma ElementsAdvance(elements: seq<ResultElement>, j: nat, query: string, results: seq<SearchResult>)
    requires j < |elements|
    requires results + MarkupResults(elements[j..], query) == MarkupResults(elements, query)
    ensures var r := ElementResult(elements[j], query);
      (results + (if r.Some? then [r.value] else [])) + MarkupResults(elements[j + 1..], query) == MarkupResults(elements, query)
  {
    assert elements[j..][0] == elements[j] && elements[j..][1..] == elements[j + 1..];
    var r := ElementResult(elements[j], query);
    var kept := if r.Some? then [r.value] else [];
    assert MarkupResults(elements[j..], query) == kept + MarkupResults(elements[j + 1..], query);
    assert results + (kept + MarkupResults(elements[j + 1..], query))
           == (results + kept) + MarkupResults(elements[j + 1..], query);
  }

  /** The markup pass over the result elements. */
  method MarkupPass(elements: seq<ResultElement>, query: string) returns (results: seq<SearchResult>)
    ensures results == MarkupResults(elements, query)
  {
    results := [];
    var j := 0;
    while j < |elements|
      invariant 0 <= j <= |elements|
      invariant results + MarkupResults(elements[j..], query) == MarkupResults(elements, query)
    {
      ElementsAdvance(elements, j, query, results);
      var r := ElementResult(elements[j], query);
      results := results + if r.Some? then [r.value] else [];
      j := j + 1;
    }
  }

  /** The two passes of the search over a fetched page, before sorting. */
  method Gather(page: Page, query: string, maxResults: int) returns (results: seq<SearchResult>)
    ensures results == Gathered(page, query, maxResults)
  {
    var h := StructuredPass(page.scripts, query, maxResults);
    if h.stop == Escaped || h.found != [] {
      results := h.found;
    } else {
      results := MarkupPass(Text.PySlice(page.resultElements, maxResults), query);
    }
  }

  /** The result of a search whose page fetch gave `fetched`. */
  function SearchOutcome(fetched: Option<Page>, query: string, maxResults: int): seq<SearchResult> {
    if fetched.None? then [] else Ranked(fetched.value, query, maxResults)
  }

  /** What `get_movie_details(id)` returns when `first` requests have been sent before it. */
  function LookupOutcome(network: (Request, nat) -> Exchange, id: string, first: nat, now: int,
                         parseFloat: string -> Option<real>): Option<Movie> {
    if HasTitlePrefix(id) then DetailsOutcome(Fetch(network, TitlePage(id), first, 0, MaxRetries).page, id, now, parseFloat)
    else None
  }

  /** The requests `get_movie_details(id)` sends. */
  function LookupRequests(network: (Request, nat) -> Exchange, id: string, first: nat): nat {
    if HasTitlePrefix(id) then Fetch(network, TitlePage(id), first, 0, MaxRetries).requests else 0
  }

  /** The fetch of the search page for `query` when `first` requests have been sent before it. */
  function SearchFetch(network: (Request, nat) -> Exchange, query: string, first: nat): Fetched {
    Fetch(network, SearchPage(Text.Strip(query)), first, 0, MaxRetries)
  }

  /** What `search_movies(query, maxResults)` returns: nothing for a blank query, else the fetched page's ranking. */
  function SearchResultsOf(network: (Request, nat) -> Exchange, query: string, first: nat, maxResults: int): seq<SearchResult> {
    if Blank(query) then [] else SearchOutcome(SearchFetch(network, query, first).page, query, maxResults)
  }

  /** The requests `search_movies(query, ...)` sends. */
  function SearchRequests(network: (Request, nat) -> Exchange, query: string, first: nat): nat {
    if Blank(query) then 0 else SearchFetch(network, query, first).requests
  }

  /** The identifier of the best search result, when there is one and it is non-empty. */
  function BestId(results: seq<SearchResult>): (r: Option<string>)
    ensures r.Some? <==> results != [] && results[0].imdbId.Some? && results[0].imdbId.value != []
    ensures r.Some? ==> r == results[0].imdbId
  {
    if results != [] && results[0].imdbId.Some? && results[0].imdbId.value != [] then results[0].imdbId else None
  }

  /** The movie a detail lookup of `id` gives when its page fetch gave `fetched` at time `now`. */
  function DetailsOutcome(fetched: Option<Page>, id: string, now: int, parseFloat: string -> Option<real>): (r: Option<Movie>)
    ensures r.Some? ==> ValidMovie(r.value) && r.value.imdbId == Some(id) && |r.value.cast| <= MaxCast
  {
    if fetched.None? then None else MovieFromPage(fetched.value, id, TitleUrl + id + "/", now, parseFloat)
  }

  /**
   * The movie of a fetched detail page: the `__NEXT_DATA__` pass when a script
   * block holds page props, the markup pass otherwise.
   */
  method ReadDetails(page: Page, id: string, now: int, parseFloat: string -> Option<real>) returns (movie: Option<Movie>)
    ensures movie == MovieFromPage(page, id, TitleUrl + id + "/", now, parseFloat)
  {
    var url := TitleUrl + id + "/";
    var scripts := page.scripts;
    var props: Option<JVal> := None;
    var i := 0;
    while i < |scripts|
      invariant 0 <= i <= |scripts|
      invariant FirstPageProps(scripts) == FirstPageProps(scripts[i..])
    {
      assert scripts[i..][0] == scripts[i] && scripts[i..][1..] == scripts[i + 1..];
      var candidate := PagePropsOf(scripts[i]);
      if candidate.Some? {
        props := candidate;
        break;
      }
      i := i + 1;
    }
    if props.None? {
      movie := MarkupMovie(page, id, url, now, parseFloat);
    } else {
      var extracted := PropsMovie(props.value, id, url, now);
      movie := if extracted.Success? then extracted.value else None;
    }
  }

  /** Request start times at least half a second apart. */
  ghost predicate Spaced(starts: seq<int>) {
    forall i :: 0 < i < |starts| ==> starts[i - 1] + MinRequestDelayMs <= starts[i]
  }

  /** A request started half a second after the last one keeps the times spaced, and later than all of them. */
  lemma SpacedAppend(starts: seq<int>, t: int)
    requires Spaced(starts)
    requires starts != [] ==> starts[|starts| - 1] + MinRequestDelayMs <= t
    ensures Spaced(starts + [t])
    ensures forall i :: 0 <= i < |starts| ==> starts[i] < t
  {
    var s := starts + [t];
    forall i | 0 < i < |s|
      ensures s[i - 1] + MinRequestDelayMs <= s[i]
    {
      if i < |starts| {
        assert s[i - 1] == starts[i - 1] && s[i] == starts[i];
      }
    }
    SpacedIncreasing(starts);
  }

  /** Spaced times increase. */
  lemma {:induction false} SpacedIncreasing(starts: seq<int>)
    requires Spaced(starts)
    ensures forall i, j :: 0 <= i < j < |starts| ==> starts[i] < starts[j]
  {
    if |starts| > 1 {
      var init := starts[..|starts| - 1];
      assert Spaced(init) by {
        forall i | 0 < i < |init| ensures init[i - 1] + MinRequestDelayMs <= init[i] {
          assert init[i - 1] == starts[i - 1] && init[i] == starts[i];
        }
      }
      SpacedIncreasing(init);
      forall i, j | 0 <= i < j < |starts| ensures starts[i] < starts[j] {
        if j < |starts| - 1 {
          assert starts[i] == init[i] && starts[j] == init[j];
        } else if i < j - 1 {
          assert starts[i] == init[i] && starts[j - 1] == init[j - 1];
          assert starts[j - 1] + MinRequestDelayMs <= starts[j];
        } else {
          assert starts[j - 1] + MinRequestDelayMs <= starts[j];
        }
      }
    }
  }

  // ---------------------------------------------------------------------------
  // The scraper object
  // ---------------------------------------------------------------------------

  class IMDbScraper {
    /** What each request produces, by request and by the number of requests sent before it. */
    const network: (Request, nat) -> Exchange
    /** Python's `float` on text. */
    const parseFloat: string -> Option<real>
    const history: History.SearchHistory
    var clock: int
    var lastRequestTime: int
    var sent: nat
    /** When each request was sent, in order. */
    ghost var starts: seq<int>
    /** Every pause taken between retries, in order. */
    ghost var backoffs: seq<nat>

    /** One start time per request sent, each at least half a second after the one before. */
    ghost predicate Paced()
      reads this
    {
      && |starts| == sent
      && Spaced(starts)
      && (starts != [] ==> lastRequestTime == starts[|starts| - 1])
    }

    ghost predicate Valid()
      reads this, history
    {
      Paced() && history.Valid()
    }

    /** A scraper at clock reading `start` whose history holds `loaded`. */
    constructor(network: (Request, nat) -> Exchange, parseFloat: string -> Option<real>, start: int, loaded: History.Store)
      requires History.WellFormed(loaded)
      ensures Valid() && fresh(history)
      ensures this.network == network && this.parseFloat == parseFloat
      ensures clock == start && lastRequestTime == 0 && sent == 0 && backoffs == []
      ensures history.Current() == loaded
    {
      this.network := network;
      this.parseFloat := parseFloat;
      history := new History.SearchHistory(loaded);
      clock := start;
      lastRequestTime := 0;
      sent := 0;
      starts := [];
      backoffs := [];
    }

    /** `_rate_limit`: waits until half a second has passed since the previous request started. */
    method RateLimit()
      modifies this
      ensures clock == old(clock) + RateLimitWait(old(clock) - old(lastRequestTime))
      ensures lastRequestTime == clock && clock - old(lastRequestTime) >= MinRequestDelayMs
      ensures sent == old(sent) && starts == old(starts) && backoffs == old(backoffs)
    {
      var elapsed := clock - lastRequestTime;
      if elapsed < MinRequestDelayMs {
        var delay := MinRequestDelayMs - elapsed;
        clock := clock + delay;
      }
      lastRequestTime := clock;
    }

    /** Sends one request once the rate limit allows, and waits for its reply. */
    method Send(request: Request) returns (exchange: Exchange)
      requires Paced()
      modifies this
      ensures Paced()
      ensures exchange == network(request, old(sent)) && sent == old(sent) + 1
      ensures backoffs == old(backoffs) && clock >= old(clock)
    {
      RateLimit();
      SpacedAppend(starts, clock);
      starts := starts + [clock];
      exchange := network(request, sent);
      sent := sent + 1;
      clock := clock + exchange.took;
    }

    /** The pause before a retry. */
    method Backoff(delay: nat)
      requires Paced()
      modifies this
      ensures Paced()
      ensures clock == old(clock) + delay && backoffs == old(backoffs) + [delay] && sent == old(sent)
    {
      clock := clock + delay;
      backoffs := backoffs + [delay];
    }

    /**
     * One attempt of `_make_request`: a request, and after a request error
     * that leaves attempts to spare, the pause before the next one.
     */
    method Attempt(request: Request, attempt: nat, maxRetries: int) returns (page: Option<Page>, retry: bool)
      requires Paced()
      modifies this
      ensures Paced()
      ensures var reply := network(request, old(sent)).reply;
        && page == (if reply.Html? then Some(reply.page) else None)
        && retry == (reply.RequestError? && attempt + 1 < maxRetries)
      ensures sent == old(sent) + 1 && clock >= old(clock)
      ensures backoffs == old(backoffs) + (if retry then [RetryDelayMs * (attempt + 1)] else [])
    {
      var exchange := Send(request);
      page, retry := None, false;
      match exchange.reply
      case Html(p) =>
        page := Some(p);
      case RequestError =>
        if attempt + 1 < maxRetries {
          Backoff(RetryDelayMs * (attempt + 1));
          retry := true;
        }
      case _ =>
    }

    /** `_make_request`: the page, or nothing once the attempts are used up or a reply is final. */
    method MakeRequest(request: Request, maxRetries: int) returns (page: Option<Page>)
      requires Paced()
      modifies this
      ensures Paced()
      ensures page == Fetch(network, request, old(sent), 0, maxRetries).page
      ensures sent == old(sent) + Fetch(network, request, old(sent), 0, maxRetries).requests
      ensures backoffs == old(backoffs) + Fetch(network, request, old(sent), 0, maxRetries).delays
      ensures clock >= old(clock)
    {
      ghost var first := sent;
      ghost var whole := Fetch(network, request, first, 0, maxRetries);
      ghost var pauses: seq<nat> := [];
      page := None;
      var finished := false;
      var attempt: nat := 0;
      while attempt < maxRetries && !finished
        invariant Paced()
        invariant sent == first + attempt
        invariant backoffs == old(backoffs) + pauses
        invariant clock >= old(clock)
        invariant !finished ==> page.None? && whole == After(pauses, Fetch(network, request, first, attempt, maxRetries))
        invariant finished ==> whole == Fetched(page, attempt, pauses)
        decreases maxRetries - attempt
      {
        FetchAdvance(network, request, first, attempt, maxRetries, whole, pauses);
        var retry;
        page, retry := Attempt(request, attempt, maxRetries);
        attempt := attempt + 1;
        if retry {
          pauses := pauses + [RetryDelayMs * attempt];
        } else {
          finished := true;
        }
      }
    }

    /** `search_movies`: results ranked by relevance, or none for a blank query or a failed fetch. */
    method SearchMovies(query: string, maxResults: int) returns (results: seq<SearchResult>)
      requires Paced()
      modifies this
      ensures Paced()
      ensures Blank(query) ==> results == [] && sent == old(sent)
      ensures results == SearchResultsOf(network, query, old(sent), maxResults)
      ensures sent == old(sent) + SearchRequests(network, query, old(sent))
      ensures clock >= old(clock)
    {
      if query == [] || Text.Strip(query) == [] {
        return [];
      }
      var page := MakeRequest(SearchPage(Text.Strip(query)), MaxRetries);
      if page.None? {
        return [];
      }
      results := Gather(page.value, query, maxResults);
      results := Sorting.SortDesc(results, ScoreGe);
    }

    /** `get_movie_details`: the movie of a `tt` identifier, read when the request is answered. */
    method GetMovieDetails(id: string) returns (movie: Option<Movie>)
      requires Paced()
      modifies this
      ensures Paced()
      ensures !HasTitlePrefix(id) ==> movie.None? && sent == old(sent)
      ensures movie == LookupOutcome(network, id, old(sent), clock, parseFloat)
      ensures sent == old(sent) + LookupRequests(network, id, old(sent))
      ensures movie.Some? ==> ValidMovie(movie.value) && movie.value.imdbId == Some(id)
      ensures clock >= old(clock)
    {
      if id == [] || !HasTitlePrefix(id) {
        return None;
      }
      var page := MakeRequest(TitlePage(id), MaxRetries);
      if page.None? {
        return None;
      }
      movie := ReadDetails(page.value, id, clock, parseFloat);
    }

    /** The detail lookup of the best of `results`, if it has an identifier. */
    method LookupBest(results: seq<SearchResult>) returns (movie: Option<Movie>)
      requires Paced()
      modifies this
      ensures Paced()
      ensures movie.Some? ==> ValidMovie(movie.value)
      ensures BestId(results).None? ==> movie.None?
      ensures BestId(results).Some? ==> movie == LookupOutcome(network, BestId(results).value, old(sent), clock, parseFloat)
    {
      movie := None;
      if results != [] && results[0].imdbId.Some? && results[0].imdbId.value != [] {
        movie := GetMovieDetails(results[0].imdbId.value);
      }
    }

    /** The search for `query` and the detail lookup of its best result, if it has one with an identifier. */
    method FindBest(query: string) returns (movie: Option<Movie>)
      requires Paced()
      modifies this
      ensures Paced()
      ensures movie.Some? ==> ValidMovie(movie.value)
      ensures BestId(SearchResultsOf(network, query, old(sent), 1)).None? ==> movie.None?
      ensures BestId(SearchResultsOf(network, query, old(sent), 1)).Some? ==>
        movie == LookupOutcome(network, BestId(SearchResultsOf(network, query, old(sent), 1)).value,
                               old(sent) + SearchRequests(network, query, old(sent)), clock, parseFloat)
    {
      ghost var expected := SearchResultsOf(network, query, sent, 1);
      ghost var between := sent + SearchRequests(network, query, sent);
      var results := SearchMovies(query, 1);
      assert results == expected && sent == between;
      movie := LookupBest(results);
    }

    /**
     * `search_and_get_movie`: the details of the best search result, with the
     * lookup recorded in the history exactly once, as a success exactly when a
     * movie is returned.
     */
    method SearchAndGetMovie(query: string) returns (movie: Option<Movie>)
      requires Valid()
      modifies this, history
      ensures Valid()
      ensures history.Current() == History.Record(old(history.Current()), History.Normalize(query),
                                                   History.OutcomeOf(movie.Some?), clock)
      ensures History.TotalSearches(history.Current()) == History.TotalSearches(old(history.Current())) + 1
      ensures movie.Some? ==> ValidMovie(movie.value)
      ensures BestId(SearchResultsOf(network, query, old(sent), 1)).None? ==> movie.None?
      ensures BestId(SearchResultsOf(network, query, old(sent), 1)).Some? ==>
        movie == LookupOutcome(network, BestId(SearchResultsOf(network, query, old(sent), 1)).value,
                               old(sent) + SearchRequests(network, query, old(sent)), clock, parseFloat)
    {
      movie := FindBest(query);
      history.RecordSearch(query, movie.Some?, clock);
    }
  }
}
