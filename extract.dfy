/**
 * What the scraper reads out of a fetched page, as pure functions of the page.
 * A page is abstracted to what the scraper's selectors return: the text of its
 * `application/json` script blocks (decoded, or not decodable), the elements of
 * the search-results list, and the texts the detail-page selectors pick.
 *
 * Search pages are read in two passes. The structured pass walks the decoded
 * script blocks; a `KeyError` or `AttributeError` abandons the current block,
 * any other exception abandons the whole search but keeps what was gathered.
 * The markup pass over the results list runs only when the structured pass
 * gathered nothing and ended normally.
 */
module Extraction {
  import opened Wrappers
  import Text
  import opened Json
  import opened Models
  import Sorting

  const TitleUrl: string := "https://www.imdb.com/title/"
  /** Cast members kept from a detail page (`[:5]` and `limit=5`). */
  const MaxCast: nat := 5
  /** The default `limit` of the multi-text extraction, which the genre texts use. */
  const MultiTextLimit: nat := 5
  const ExactScore: real := 1.0
  const PartialScore: real := 0.5

  // ---------------------------------------------------------------------------
  // Pages
  // ---------------------------------------------------------------------------

  /** A `<script type="application/json">` element: its text decodes, or it is empty or not JSON. */
  datatype Block = Unreadable | Decoded(data: JVal)

  /** A title link of the search markup: its stripped text and the absolute URL of its `href`. */
  datatype Link = Link(text: string, url: string)

  /** One element of the search-results list. */
  datatype ResultElement = ResultElement(titleLink: Option<Link>, yearText: Option<string>)

  /**
   * A fetched page. The optional texts are what the single-element extraction
   * gives for the detail-page selectors (stripped text of the first match, or
   * nothing); `genres` and `cast` are the texts of every match, in page order.
   */
  datatype Page = Page(
    scripts: seq<Block>,
    resultElements: seq<ResultElement>,
    heroTitle: Option<string>,
    releaseText: Option<string>,
    ratingText: Option<string>,
    runtimeText: Option<string>,
    genreTexts: seq<string>,
    directorText: Option<string>,
    castTexts: seq<string>,
    plotText: Option<string>)

  // ---------------------------------------------------------------------------
  // The year pattern `\b(19|20)\d{2}\b`
  // ---------------------------------------------------------------------------

  function DigitValue(c: char): int
    requires Text.IsDigit(c)
  {
    c as int - '0' as int
  }

  /** A four-digit year starting with 19 or 20 sits at `i`, with a word boundary on each side. */
  predicate YearAt(s: string, i: nat) {
    && i + 4 <= |s|
    && ((s[i] == '1' && s[i + 1] == '9') || (s[i] == '2' && s[i + 1] == '0'))
    && Text.IsDigit(s[i + 2]) && Text.IsDigit(s[i + 3])
    && (i == 0 || !Text.IsWordChar(s[i - 1]))
    && (i + 4 == |s| || !Text.IsWordChar(s[i + 4]))
  }

  function YearValue(s: string, i: nat): (y: int)
    requires YearAt(s, i)
    ensures 1900 <= y <= 2099
  {
    1000 * DigitValue(s[i]) + 100 * DigitValue(s[i + 1]) + 10 * DigitValue(s[i + 2]) + DigitValue(s[i + 3])
  }

  /** The leftmost match is at `i`. */
  predicate FirstYearAt(s: string, i: nat) {
    YearAt(s, i) && forall k: nat :: k < i ==> !YearAt(s, k)
  }

  function YearFrom(s: string, i: nat): (r: Option<int>)
    requires i <= |s|
    requires forall k: nat :: k < i ==> !YearAt(s, k)
    ensures r.None? <==> forall k: nat :: !YearAt(s, k)
    ensures r.Some? ==> exists k: nat :: FirstYearAt(s, k) && r.value == YearValue(s, k)
    decreases |s| - i
  {
    if i + 4 > |s| then None
    else if YearAt(s, i) then
      assert FirstYearAt(s, i);
      Some(YearValue(s, i))
    else YearFrom(s, i + 1)
  }

  /** `re.search(r'\b(19|20)\d{2}\b', s)` read as an integer: the leftmost match, if any. */
  function FindYear(s: string): (r: Option<int>)
    ensures r.None? <==> forall k: nat :: !YearAt(s, k)
    ensures r.Some? ==> exists k: nat :: FirstYearAt(s, k) && r.value == YearValue(s, k)
    ensures r.Some? ==> 1900 <= r.value <= 2099
  {
    YearFrom(s, 0)
  }

  /** The pattern needs word boundaries: a decade, a longer number or a glued word yields nothing. */
  lemma YearExamples()
    ensures FindYear("2010") == Some(2010)
    ensures FindYear("(1999 TV Movie)") == Some(1999)
    ensures FindYear("1850, 1999-2003") == Some(1999)
    ensures FindYear("2010s") == None
    ensures FindYear("12010") == None
    ensures FindYear("1850") == None
  {
    assert YearAt("2010", 0);
    assert YearAt("(1999 TV Movie)", 1);
    assert !YearAt("(1999 TV Movie)", 0);
    assert YearAt("1850, 1999-2003", 6);
    var s := "1850, 1999-2003";
    assert forall k: nat :: k < 6 ==> !YearAt(s, k) by {
      assert !YearAt(s, 0) && !YearAt(s, 1) && !YearAt(s, 2) && !YearAt(s, 3) && !YearAt(s, 4) && !YearAt(s, 5);
    }
    assert forall k: nat :: !YearAt("2010s", k) by {
      assert !YearAt("2010s", 0) && !YearAt("2010s", 1);
    }
    assert forall k: nat :: !YearAt("12010", k) by {
      assert !YearAt("12010", 0) && !YearAt("12010", 1);
    }
    assert forall k: nat :: !YearAt("1850", k) by {
      assert !YearAt("1850", 0);
    }
  }

  // ---------------------------------------------------------------------------
  // Relevance and title identifiers
  // ---------------------------------------------------------------------------

  /** Full score when the lower-cased query occurs in the lower-cased title, half score otherwise. */
  function RelevanceScore(query: string, title: string): (r: real)
    ensures r == ExactScore <==> Text.IsSubstring(Text.Lower(query), Text.Lower(title))
    ensures r == PartialScore <==> !Text.IsSubstring(Text.Lower(query), Text.Lower(title))
  {
    if Text.Contains(Text.Lower(title), Text.Lower(query)) then ExactScore else PartialScore
  }

  /** Length of the run of digits starting at `j`. */
  function DigitRun(s: string, j: nat): (n: nat)
    requires j <= |s|
    ensures j + n <= |s|
    ensures forall k :: j <= k < j + n ==> Text.IsDigit(s[k])
    ensures j + n < |s| ==> !Text.IsDigit(s[j + n])
    decreases |s| - j
  {
    if j < |s| && Text.IsDigit(s[j]) then 1 + DigitRun(s, j + 1) else 0
  }

  const TitlePrefix: string := "/title/"

  /** `/title/(tt\d+)/` matches at `i`; the digits run greedily, so the slash must follow the whole run. */
  predicate TitleIdAt(url: string, i: nat) {
    && i + 9 <= |url|
    && url[i..i + 9] == TitlePrefix + "tt"
    && DigitRun(url, i + 9) > 0
    && i + 9 + DigitRun(url, i + 9) < |url|
    && url[i + 9 + DigitRun(url, i + 9)] == '/'
  }

  predicate IsTitleId(id: string) {
    |id| >= 3 && id[..2] == "tt" && forall k :: 2 <= k < |id| ==> Text.IsDigit(id[k])
  }

  function TitleIdFrom(url: string, i: nat): (r: Option<string>)
    requires i <= |url|
    ensures r.None? <==> forall k: nat :: i <= k ==> !TitleIdAt(url, k)
    ensures r.Some? ==> IsTitleId(r.value)
    ensures r.Some? ==> exists k: nat :: && i <= k && TitleIdAt(url, k)
                                         && (forall j: nat :: i <= j < k ==> !TitleIdAt(url, j))
                                         && r.value == url[k + 7..k + 9 + DigitRun(url, k + 9)]
    decreases |url| - i
  {
    if i + 9 > |url| then None
    else if TitleIdAt(url, i) then
      var id := url[i + 7..i + 9 + DigitRun(url, i + 9)];
      assert id[..2] == url[i + 7..i + 9];
      Some(id)
    else TitleIdFrom(url, i + 1)
  }

  /** The group of `re.search(r'/title/(tt\d+)/', url)`: the digits of the leftmost match. */
  function TitleIdIn(url: string): (r: Option<string>)
    ensures r.None? <==> forall k: nat :: !TitleIdAt(url, k)
    ensures r.Some? ==> IsTitleId(r.value)
    ensures r.Some? ==> exists k: nat :: && TitleIdAt(url, k)
                                         && (forall j: nat :: j < k ==> !TitleIdAt(url, j))
                                         && r.value == url[k + 7..k + 9 + DigitRun(url, k + 9)]
  {
    TitleIdFrom(url, 0)
  }

  /** A match at the very start is the leftmost one. */
  lemma TitleIdAtStart(url: string)
    requires TitleIdAt(url, 0)
    ensures TitleIdIn(url) == Some(url[7..9 + DigitRun(url, 9)])
  {
  }

  /** The identifier is the `tt` and the digits of the match. */
  lemma TitleIdExamples()
    ensures TitleIdIn("/title/tt12/") == Some("tt12")
  {
    var u := "/title/tt12/";
    assert DigitRun(u, 9) == 2;
    assert TitleIdAt(u, 0);
    TitleIdAtStart(u);
    assert u[7..11] == "tt12";
  }

  /** Without the closing slash there is no match. */
  lemma TitleIdNeedsSlash()
    ensures TitleIdIn("/title/tt12") == None
  {
    var v := "/title/tt12";
    assert DigitRun(v, 9) == 2;
    assert !TitleIdAt(v, 0);
    forall k: nat ensures !TitleIdAt(v, k) {
      if 0 < k && k + 9 <= |v| { assert v[k..k + 9][0] == v[k] != '/'; }
    }
  }

  /** Text after the end of a digit run does not change the run. */
  lemma {:induction false} DigitRunPrefix(s: string, rest: string, j: nat)
    requires j <= |s| && j + DigitRun(s, j) < |s|
    ensures DigitRun(s + rest, j) == DigitRun(s, j)
    decreases |s| - j
  {
    assert (s + rest)[j] == s[j];
    if Text.IsDigit(s[j]) {
      DigitRunPrefix(s, rest, j + 1);
    }
  }

  /** A match at the start of `url` is still one, with the same digits, whatever follows. */
  lemma TitleIdAtExtends(url: string, rest: string)
    requires TitleIdAt(url, 0)
    ensures TitleIdAt(url + rest, 0)
    ensures (url + rest)[7..9 + DigitRun(url + rest, 9)] == url[7..9 + DigitRun(url, 9)]
  {
    var n := DigitRun(url, 9);
    DigitRunPrefix(url, rest, 9);
    assert (url + rest)[..9] == url[..9];
    assert (url + rest)[9 + n] == url[9 + n];
  }

  /** The leftmost match wins: whatever follows a URL that already matches at its start, the identifier stays. */
  lemma TitleIdLeftmost(url: string, rest: string)
    requires TitleIdAt(url, 0)
    ensures TitleIdIn(url + rest) == TitleIdIn(url)
  {
    TitleIdAtExtends(url, rest);
    TitleIdAtStart(url);
    TitleIdAtStart(url + rest);
  }

  // ---------------------------------------------------------------------------
  // Search pages
  // ---------------------------------------------------------------------------

  /** Every gathered result has a title that is not blank, scored against the query. */
  predicate Scored(r: SearchResult, query: string) {
    !Blank(r.title) && r.relevanceScore == RelevanceScore(query, r.title)
  }

  /** How a stretch of the structured pass ended. */
  datatype Stop = Finished | Abandoned | Escaped

  /** The results a stretch of the structured pass appended, and how it ended. */
  datatype Harvest = Harvest(found: seq<SearchResult>, stop: Stop)

  /** The exceptions the per-block handler catches. */
  predicate CaughtInBlock(e: PyError) { e == KeyError || e == AttributeError }

  function StopFor(e: PyError): Stop {
    if CaughtInBlock(e) then Abandoned else Escaped
  }

  /** `re.search` on `titleReleaseText` when it is truthy; only a string can be searched. */
  function ReleaseYear(release: JVal): (r: Result<Option<int>, PyError>)
    ensures !Truthy(release) ==> r == Success(None)
    ensures release.JStr? ==> r == Success(FindYear(release.s))
    ensures r.Failure? ==> r.error == TypeError
  {
    if !Truthy(release) then Success(None)
    else if release.JStr? then Success(FindYear(release.s))
    else Failure(TypeError)
  }

  /** The stored identifier: the `id` string (`""` when the item has none); other values are not kept. */
  function ItemId(idVal: JVal): Option<string> {
    if idVal.JStr? then Some(idVal.s) else None
  }

  /** `item.get('titleNameText', '')`. */
  function TitleText(item: JVal): JVal
    requires item.JObj?
  {
    Field(item.members, "titleNameText", JStr(""))
  }

  /** `item.get('titleReleaseText', '')`. */
  function ReleaseText(item: JVal): JVal
    requires item.JObj?
  {
    Field(item.members, "titleReleaseText", JStr(""))
  }

  /** `item.get('id', '')`. */
  function IdText(item: JVal): JVal
    requires item.JObj?
  {
    Field(item.members, "id", JStr(""))
  }

  /** One element of `titleResults.results`: a result, nothing (blank title), or an exception. */
  function ItemResult(item: JVal, query: string): (r: Result<Option<SearchResult>, PyError>)
    ensures r.Success? && r.value.Some? ==> Scored(r.value.value, query)
    ensures r.Success? && r.value.Some? && r.value.value.url.Some? ==>
      r.value.value.imdbId.Some? && r.value.value.url.value == TitleUrl + r.value.value.imdbId.value + "/"
    ensures r.Failure? ==> r.error != ValueError
  {
    if !item.JObj? then Failure(AttributeError)
    else
      var title :- StripText(TitleText(item));
      if title == [] then Success(None)
      else
        assert !Text.AllSpace(title) by { assert !Text.IsSpace(title[0]); }
        var year :- ReleaseYear(ReleaseText(item));
        var idVal := IdText(item);
        var url := if idVal.JStr? && Truthy(idVal) then Some(TitleUrl + idVal.s + "/") else None;
        match NewSearchResult(title, year, ItemId(idVal), url, RelevanceScore(query, title))
        case Success(r) => Success(Some(r))
        case Failure(_) => Failure(ValueError)
  }

  /**
   * What an item yields: an `AttributeError` unless it is an object with a
   * string title, nothing when that title is blank, and otherwise a result
   * holding the stripped title, the year of its release text and its id,
   * whenever the release text can be read.
   */
  lemma ItemResultContent(item: JVal, query: string)
    ensures var r := ItemResult(item, query);
      && (!item.JObj? || !TitleText(item).JStr? ==> r == Failure(AttributeError))
      && (item.JObj? && TitleText(item).JStr? ==> (Text.Strip(TitleText(item).s) == [] <==> r == Success(None)))
      && ((item.JObj? && TitleText(item).JStr? && Text.Strip(TitleText(item).s) != [] &&
           ReleaseYear(ReleaseText(item)).Success?) ==> r.Success? && r.value.Some?)
      && (r.Success? && r.value.Some? ==>
            && item.JObj? && TitleText(item).JStr?
            && r.value.value.title == Text.Strip(TitleText(item).s)
            && ReleaseYear(ReleaseText(item)) == Success(r.value.value.year)
            && r.value.value.imdbId == ItemId(IdText(item)))
  {
    if item.JObj? && TitleText(item).JStr? {
      var title := Text.Strip(TitleText(item).s);
      if title != [] {
        assert !Text.AllSpace(title) by { assert !Text.IsSpace(title[0]); }
      }
    }
  }

  /** The loop over one block's items: stops at the first exception, keeping what it appended. */
  function ItemsHarvest(items: seq<JVal>, query: string): (h: Harvest)
    ensures |h.found| <= |items|
    ensures forall r :: r in h.found ==> Scored(r, query)
  {
    if items == [] then Harvest([], Finished)
    else
      match ItemResult(items[0], query)
      case Failure(e) => Harvest([], StopFor(e))
      case Success(r) =>
        var rest := ItemsHarvest(items[1..], query);
        Harvest((if r.Some? then [r.value] else []) + rest.found, rest.stop)
  }

  const ResultsPath: seq<string> := ["props", "pageProps", "titleResults", "results"]

  /** One script block: its first `maxResults` items (Python's `[:maxResults]`). */
  function BlockHarvest(b: Block, query: string, maxResults: int): (h: Harvest)
    ensures maxResults >= 0 ==> |h.found| <= maxResults
    ensures forall r :: r in h.found ==> Scored(r, query)
  {
    match b
    case Unreadable => Harvest([], Finished)
    case Decoded(data) =>
      match Dig(data, ResultsPath, JArr([]))
      case Failure(e) => Harvest([], StopFor(e))
      case Success(results) =>
        match Slice(results, maxResults)
        case Failure(e) => Harvest([], StopFor(e))
        case Success(items) => ItemsHarvest(items, query)
  }

  /** The structured pass: blocks in page order until one lets an exception escape. */
  function StructuredHarvest(blocks: seq<Block>, query: string, maxResults: int): (h: Harvest)
    ensures h.stop != Abandoned
    ensures forall r :: r in h.found ==> Scored(r, query)
  {
    if blocks == [] then Harvest([], Finished)
    else
      var first := BlockHarvest(blocks[0], query, maxResults);
      if first.stop == Escaped then first
      else
        var rest := StructuredHarvest(blocks[1..], query, maxResults);
        Harvest(first.found + rest.found, rest.stop)
  }

  /** The structured pass over non-empty blocks: the first block, then the rest unless an exception escaped. */
  lemma StructuredStep(blocks: seq<Block>, query: string, maxResults: int)
    requires blocks != []
    ensures var first := BlockHarvest(blocks[0], query, maxResults);
            var rest := StructuredHarvest(blocks[1..], query, maxResults);
            StructuredHarvest(blocks, query, maxResults)
            == if first.stop == Escaped then first else Harvest(first.found + rest.found, rest.stop)
  {
  }

  /** A single block: its own harvest, ended normally unless an exception escaped. */
  lemma StructuredOne(b: Block, query: string, maxResults: int)
    ensures var last := BlockHarvest(b, query, maxResults);
            StructuredHarvest([b], query, maxResults)
            == if last.stop == Escaped then last else Harvest(last.found, Finished)
  {
    var last := BlockHarvest(b, query, maxResults);
    assert [b][0] == b && [b][1..] == [];
    assert last.found + [] == last.found;
  }

  /**
   * The blocks are read in page order: a further block adds its results after
   * those of the blocks before it, unless an exception has already escaped.
   * With `StructuredHarvest([]) == Harvest([], Finished)` this fixes the pass.
   */
  lemma {:induction false} StructuredSnoc(blocks: seq<Block>, b: Block, query: string, maxResults: int)
    ensures var h := StructuredHarvest(blocks, query, maxResults);
            var last := BlockHarvest(b, query, maxResults);
            StructuredHarvest(blocks + [b], query, maxResults)
            == if h.stop == Escaped then h
               else Harvest(h.found + last.found, if last.stop == Escaped then Escaped else Finished)
  {
    var last := BlockHarvest(b, query, maxResults);
    var all := blocks + [b];
    if blocks == [] {
      assert all == [b];
      StructuredOne(b, query, maxResults);
    } else {
      assert all[0] == blocks[0] && all[1..] == blocks[1..] + [b];
      var first := BlockHarvest(blocks[0], query, maxResults);
      if first.stop != Escaped {
        StructuredSnoc(blocks[1..], b, query, maxResults);
        var rest := StructuredHarvest(blocks[1..], query, maxResults);
        var restAll := StructuredHarvest(all[1..], query, maxResults);
        StructuredStep(all, query, maxResults);
        StructuredStep(blocks, query, maxResults);
        assert StructuredHarvest(all, query, maxResults) == Harvest(first.found + restAll.found, restAll.stop);
        assert StructuredHarvest(blocks, query, maxResults) == Harvest(first.found + rest.found, rest.stop);
        if rest.stop != Escaped {
          assert restAll == Harvest(rest.found + last.found, if last.stop == Escaped then Escaped else Finished);
          Sorting.AppendAssoc(first.found, rest.found, last.found);
        } else {
          assert restAll == rest;
        }
      } else {
        assert StructuredHarvest(all, query, maxResults) == first == StructuredHarvest(blocks, query, maxResults);
      }
    }
  }

  lemma MulSucc(a: nat, b: nat)
    ensures a * (b + 1) == a * b + a
  {
  }

  /** Each block contributes at most `maxResults` results. */
  lemma {:induction false} StructuredBound(blocks: seq<Block>, query: string, maxResults: nat)
    ensures |StructuredHarvest(blocks, query, maxResults).found| <= maxResults * |blocks|
  {
    if blocks != [] {
      var first := BlockHarvest(blocks[0], query, maxResults);
      var rest := blocks[1..];
      StructuredBound(rest, query, maxResults);
      StructuredStep(blocks, query, maxResults);
      assert |StructuredHarvest(blocks, query, maxResults).found|
             <= |first.found| + |StructuredHarvest(rest, query, maxResults).found|;
      assert |blocks| == |rest| + 1;
      MulSucc(maxResults, |rest|);
    }
  }

  /**
   * One element of the results list; any exception, or a blank title, skips the element.
   * A result holds the link's text and URL and the year of the year text.
   */
  function ElementResult(e: ResultElement, query: string): (r: Option<SearchResult>)
    ensures r.Some? ==> Scored(r.value, query)
    ensures r.Some? ==> r.value.url.Some? && r.value.imdbId == TitleIdIn(r.value.url.value)
    ensures e.titleLink.None? ==> r.None?
    ensures e.titleLink.Some? ==> (r.Some? <==> !Blank(e.titleLink.value.text))
    ensures r.Some? ==>
      && e.titleLink.Some?
      && r.value.title == e.titleLink.value.text
      && r.value.url == Some(e.titleLink.value.url)
      && r.value.year == (if e.yearText.Some? then FindYear(e.yearText.value) else None)
  {
    match e.titleLink
    case None => None
    case Some(link) =>
      var year := if e.yearText.Some? then FindYear(e.yearText.value) else None;
      match NewSearchResult(link.text, year, TitleIdIn(link.url), Some(link.url), RelevanceScore(query, link.text))
      case Success(r) => Some(r)
      case Failure(_) => None
  }

  /** The markup pass over the (already limited) result elements. */
  function MarkupResults(elements: seq<ResultElement>, query: string): (rs: seq<SearchResult>)
    ensures |rs| <= |elements|
    ensures forall r :: r in rs ==> Scored(r, query)
  {
    if elements == [] then []
    else
      var r := ElementResult(elements[0], query);
      (if r.Some? then [r.value] else []) + MarkupResults(elements[1..], query)
  }

  /**
   * The results gathered from a search page before sorting: the structured
   * pass, or the markup pass over the first `maxResults` elements when the
   * structured pass ended normally with nothing.
   */
  function Gathered(page: Page, query: string, maxResults: int): (rs: seq<SearchResult>)
    ensures forall r :: r in rs ==> Scored(r, query)
  {
    var h := StructuredHarvest(page.scripts, query, maxResults);
    if h.stop == Escaped || h.found != [] then h.found
    else MarkupResults(Text.PySlice(page.resultElements, maxResults), query)
  }

  /**
   * The markup pass is the fallback: its results are the search's exactly when
   * the structured pass ended normally with nothing; otherwise the structured
   * results stand, including those gathered before an exception escaped.
   */
  lemma GatheredFallback(page: Page, query: string, maxResults: int)
    ensures var h := StructuredHarvest(page.scripts, query, maxResults);
      && (h.stop == Escaped || h.found != [] ==> Gathered(page, query, maxResults) == h.found)
      && (h.stop != Escaped && h.found == [] ==>
            Gathered(page, query, maxResults) == MarkupResults(Text.PySlice(page.resultElements, maxResults), query))
  {
  }

  /**
   * The markup pass yields at most `maxResults` results; the structured pass
   * at most `maxResults` per script block.
   */
  lemma GatheredBound(page: Page, query: string, maxResults: nat)
    ensures |Gathered(page, query, maxResults)| <= maxResults * |page.scripts|
            || |Gathered(page, query, maxResults)| <= maxResults
  {
    StructuredBound(page.scripts, query, maxResults);
  }

  /** Results ranked by score, best first; stable among equal scores. */
  predicate ScoreGe(a: SearchResult, b: SearchResult) { a.relevanceScore >= b.relevanceScore }

  lemma ScoreGeIsTotalPreorder()
    ensures Sorting.TotalPreorder(ScoreGe)
  {
  }

  /** The search result list: the gathered results ordered by `sort(key=score, reverse=True)`. */
  function Ranked(page: Page, query: string, maxResults: int): seq<SearchResult> {
    Sorting.SortDesc(Gathered(page, query, maxResults), ScoreGe)
  }

  /**
   * The ranked list holds exactly the gathered results, every exact match
   * before every partial match, and results of equal score in page order.
   */
  lemma RankedCorrect(page: Page, query: string, maxResults: int)
    ensures multiset(Ranked(page, query, maxResults)) == multiset(Gathered(page, query, maxResults))
    ensures forall i, j :: 0 <= i < j < |Ranked(page, query, maxResults)| ==>
      Ranked(page, query, maxResults)[i].relevanceScore >= Ranked(page, query, maxResults)[j].relevanceScore
    ensures forall k :: Sorting.Tier(Ranked(page, query, maxResults), k, ScoreGe)
                        == Sorting.Tier(Gathered(page, query, maxResults), k, ScoreGe)
    ensures forall r :: r in Ranked(page, query, maxResults) ==> r.relevanceScore == ExactScore || r.relevanceScore == PartialScore
  {
    ScoreGeIsTotalPreorder();
    var g := Gathered(page, query, maxResults);
    Sorting.SortDescCorrect(g, ScoreGe);
    forall r | r in Ranked(page, query, maxResults)
      ensures r.relevanceScore == ExactScore || r.relevanceScore == PartialScore
    {
      assert r in multiset(g);
      assert r in g;
      assert Scored(r, query);
    }
  }

  /** When the structured pass finds anything, the results list of the markup is never consulted. */
  lemma MarkupIgnoredAfterStructuredHit(page: Page, other: seq<ResultElement>, query: string, maxResults: int)
    requires StructuredHarvest(page.scripts, query, maxResults).found != []
    ensures Gathered(page, query, maxResults) == Gathered(page.(resultElements := other), query, maxResults)
  {
  }

  /** A search-page script block whose results list holds one item with the given title. */
  function OneTitleBlock(title: string): JVal {
    JObj([Member("props", JObj([Member("pageProps", JObj([Member("titleResults",
      JObj([Member("results", JArr([TitleItem(title)]))]))]))]))])
  }

  function TitleItem(title: string): JVal {
    JObj([Member("titleNameText", JStr(title))])
  }

  /** An item with a title and nothing else yields a result. */
  lemma TitleOnlyItem(title: string, query: string)
    requires !Blank(title)
    ensures ItemResult(TitleItem(title), query).Success?
    ensures ItemResult(TitleItem(title), query).value.Some?
  {
    var ms := [Member("titleNameText", JStr(title))];
    assert Field(ms, "titleNameText", JStr("")) == JStr(title);
    assert Field(ms, "titleReleaseText", JStr("")) == JStr("");
    assert Field(ms, "id", JStr("")) == JStr("");
  }

  /**
   * The limit applies per script block, not to the whole search: two blocks
   * with one item each give two results for a limit of one.
   */
  lemma LimitIsPerBlock(title: string, query: string)
    requires !Blank(title)
    ensures |Gathered(Page([Decoded(OneTitleBlock(title)), Decoded(OneTitleBlock(title))],
                           [], None, None, None, None, [], None, [], None), query, 1)| == 2
  {
    OneTitleBlockHarvest(title, query);
    TwoFinishedBlocks(Decoded(OneTitleBlock(title)), Decoded(OneTitleBlock(title)), query, 1);
  }

  /** Two blocks that each end normally contribute what each finds. */
  lemma TwoFinishedBlocks(b1: Block, b2: Block, query: string, maxResults: int)
    requires BlockHarvest(b1, query, maxResults).stop == Finished
    requires BlockHarvest(b2, query, maxResults).stop == Finished
    ensures StructuredHarvest([b1, b2], query, maxResults)
            == Harvest(BlockHarvest(b1, query, maxResults).found + BlockHarvest(b2, query, maxResults).found, Finished)
  {
    var h1 := BlockHarvest(b1, query, maxResults);
    StructuredSnoc([], b1, query, maxResults);
    assert [] + [b1] == [b1] && [] + h1.found == h1.found;
    StructuredSnoc([b1], b2, query, maxResults);
    assert [b1] + [b2] == [b1, b2];
  }

  /** A block whose results list is `items` harvests its first `maxResults` items. */
  lemma BlockOfItems(data: JVal, items: seq<JVal>, query: string, maxResults: int)
    requires Dig(data, ResultsPath, JArr([])) == Success(JArr(items))
    ensures BlockHarvest(Decoded(data), query, maxResults) == ItemsHarvest(Text.PySlice(items, maxResults), query)
  {
  }

  lemma OneTitleBlockHarvest(title: string, query: string)
    requires !Blank(title)
    ensures |BlockHarvest(Decoded(OneTitleBlock(title)), query, 1).found| == 1
    ensures BlockHarvest(Decoded(OneTitleBlock(title)), query, 1).stop == Finished
  {
    var items := [TitleItem(title)];
    OneTitleBlockResults(title);
    BlockOfItems(OneTitleBlock(title), items, query, 1);
    assert Text.PySlice(items, 1) == items;
    TitleItemHarvest(title, query);
  }

  lemma OneTitleBlockResults(title: string)
    ensures Dig(OneTitleBlock(title), ResultsPath, JArr([])) == Success(JArr([TitleItem(title)]))
  {
  }

  lemma TitleItemHarvest(title: string, query: string)
    requires !Blank(title)
    ensures |ItemsHarvest([TitleItem(title)], query).found| == 1
    ensures ItemsHarvest([TitleItem(title)], query).stop == Finished
  {
    TitleOnlyItem(title, query);
    var items := [TitleItem(title)];
    assert items[0] == TitleItem(title) && items[1..] == [];
    assert ItemsHarvest(items[1..], query) == Harvest([], Finished);
  }

  // ---------------------------------------------------------------------------
  // Detail pages, structured data
  // ---------------------------------------------------------------------------

  /** `data.get('props', {}).get('pageProps', {})` when it is truthy; a failing block gives nothing. */
  function PagePropsOf(b: Block): Option<JVal> {
    match b
    case Unreadable => None
    case Decoded(data) =>
      match Dig(data, ["props", "pageProps"], EmptyObj)
      case Success(v) => if Truthy(v) then Some(v) else None
      case Failure(_) => None
  }

  /** The page properties of the first block that has any. */
  function FirstPageProps(blocks: seq<Block>): (r: Option<JVal>)
    ensures r.None? <==> forall i :: 0 <= i < |blocks| ==> PagePropsOf(blocks[i]).None?
    ensures r.Some? ==> Truthy(r.value)
    ensures r.Some? ==> exists i :: 0 <= i < |blocks| && PagePropsOf(blocks[i]) == r
                                    && forall j :: 0 <= j < i ==> PagePropsOf(blocks[j]).None?
  {
    if blocks == [] then None
    else if PagePropsOf(blocks[0]).Some? then PagePropsOf(blocks[0])
    else
      var r := FirstPageProps(blocks[1..]);
      assert forall i :: 1 <= i < |blocks| ==> blocks[i] == blocks[1..][i - 1];
      if r.Some? then
        var i :| 0 <= i < |blocks[1..]| && PagePropsOf(blocks[1..][i]) == r
                 && forall j :: 0 <= j < i ==> PagePropsOf(blocks[1..][j]).None?;
        assert PagePropsOf(blocks[i + 1]) == r;
        r
      else r
  }

  /** A year value the movie can hold: `None`, a number (a boolean counts as 0 or 1). */
  function YearField(v: JVal): Result<Option<int>, PyError> {
    match v
    case JNull => Success(None)
    case JBool(b) => Success(Some(if b then 1 else 0))
    case JNum(n) => if n == n.Floor as real then Success(Some(n.Floor)) else Failure(TypeError)
    case _ => Failure(TypeError)
  }

  /** A rating value the movie can hold: `None` or a number. */
  function RatingField(v: JVal): Result<Option<real>, PyError> {
    match v
    case JNull => Success(None)
    case JBool(b) => Success(Some(if b then 1.0 else 0.0))
    case JNum(n) => Success(Some(n))
    case _ => Failure(TypeError)
  }

  /** A text value the movie can hold: `None` or a string. */
  function TextField(v: JVal): (r: Result<Option<string>, PyError>)
    ensures v.JStr? ==> r == Success(Some(v.s))
  {
    match v
    case JNull => Success(None)
    case JStr(s) => Success(Some(s))
    case _ => Failure(TypeError)
  }

  /** The runtime: the display text when both the runtime record and its text are truthy. */
  function RuntimeOf(above: JVal): Result<JVal, PyError> {
    var runtimeData :- Get(above, "runtime", EmptyObj);
    if !Truthy(runtimeData) then Success(JNull)
    else
      var display :- Dig(runtimeData, ["displayableProperty", "value", "plainText"], JNull);
      Success(if Truthy(display) then display else JNull)
  }

  /** `credit.get('name', {}).get('nameText', {}).get('text', '')`. */
  function CreditName(credit: JVal): Result<JVal, PyError> {
    Dig(credit, ["name", "nameText", "text"], JStr(""))
  }

  /**
   * A credits list scanned for the first group whose category text is
   * `Director` and whose credits are non-empty: the name of its first credit.
   * The crew list keeps the category under `grouping`, the principal credits
   * under `category`.
   */
  function DirectorCredit(items: seq<JVal>, categoryKey: string): (r: Result<Option<JVal>, PyError>)
  {
    if items == [] then Success(None)
    else if !items[0].JObj? then Failure(AttributeError)
    else
      var category :- Get(Field(items[0].members, categoryKey, EmptyObj), "text", JNull);
      if category == JStr("Director") then
        var credits := Field(items[0].members, "credits", JArr([]));
        if Truthy(credits) then
          var first :- First(credits);
          var name :- CreditName(first);
          Success(Some(name))
        else DirectorCredit(items[1..], categoryKey)
      else DirectorCredit(items[1..], categoryKey)
  }


  /** The director named by the crew list (`mainColumnData.crewV2`), if the scan assigns one. */
  function CrewDirector(props: JVal): Result<Option<JVal>, PyError> {
    var main :- Get(props, "mainColumnData", EmptyObj);
    var crew :- Get(main, "crewV2", JArr([]));
    var items :- Elements(crew);
    DirectorCredit(items, "grouping")
  }

  /** The director named by `principalCredits`, if the scan assigns one. */
  function PrincipalDirector(above: JVal): Result<Option<JVal>, PyError> {
    var principal :- Get(above, "principalCredits", JArr([]));
    var items :- Elements(principal);
    DirectorCredit(items, "category")
  }

  /** The director named by the first entry of a non-empty `directorsPageTitle`. */
  function PageDirector(above: JVal): Result<Option<JVal>, PyError> {
    var page :- Get(above, "directorsPageTitle", JArr([]));
    if !Truthy(page) then Success(None)
    else
      var n :- Len(page);
      if n > 0 then
        var first :- First(page);
        var name :- CreditName(first);
        Success(Some(name))
      else Success(None)
  }

  /** A source that ran without an exception and named someone. */
  predicate Names(source: Result<Option<JVal>, PyError>) {
    source.Success? && source.value.Some? && Truthy(source.value.value)
  }

  /**
   * The director: the crew list first, then the principal credits, then the
   * directors page; a later source is consulted only while the director is
   * still falsy, and a source that assigns a falsy name still replaces the
   * earlier falsy one.
   */
  function DirectorOf(props: JVal, above: JVal): (r: Result<JVal, PyError>)
    ensures Names(CrewDirector(props)) ==> r == Success(CrewDirector(props).value.value)
    ensures CrewDirector(props).Success? && !Names(CrewDirector(props)) && Names(PrincipalDirector(above))
            ==> r == Success(PrincipalDirector(above).value.value)
    ensures CrewDirector(props).Success? && !Names(CrewDirector(props)) &&
            PrincipalDirector(above).Success? && !Names(PrincipalDirector(above)) && Names(PageDirector(above))
            ==> r == Success(PageDirector(above).value.value)
    ensures CrewDirector(props).Success? && !Names(CrewDirector(props)) &&
            PrincipalDirector(above).Success? && !Names(PrincipalDirector(above)) &&
            PageDirector(above).Success? && !Names(PageDirector(above))
            ==> r.Success? && !Truthy(r.value)
    ensures r.Success? && Truthy(r.value) ==>
      Names(CrewDirector(props)) || Names(PrincipalDirector(above)) || Names(PageDirector(above))
    ensures r.Success? ==> CrewDirector(props).Success?
  {
    var fromCrew :- CrewDirector(props);
    var director := fromCrew.GetOr(JNull);
    if Truthy(director) then Success(director)
    else
      var fromPrincipal :- PrincipalDirector(above);
      var director := fromPrincipal.GetOr(director);
      if Truthy(director) then Success(director)
      else
        var fromPage :- PageDirector(above);
        Success(fromPage.GetOr(director))
  }

  /** A string-valued entry of a name list; the model keeps such lists as strings. */
  function TextOf(v: JVal): (r: Result<string, PyError>)
    ensures r.Success? <==> v.JStr?
    ensures v.JStr? ==> r.value == v.s
  {
    if v.JStr? then Success(v.s) else Failure(TypeError)
  }

  /** Two stretches of a list comprehension run one after the other: the first exception wins. */
  function Joined(x: Result<seq<string>, PyError>, y: Result<seq<string>, PyError>): Result<seq<string>, PyError> {
    if x.Failure? then x else if y.Failure? then y else Success(x.value + y.value)
  }

  /** What one genre entry contributes: its text when `g.get('text')` is truthy. */
  function GenreEntry(g: JVal): (r: Result<seq<string>, PyError>)
    ensures r.Success? ==> |r.value| <= 1 && forall n :: n in r.value ==> n != []
  {
    var text :- Get(g, "text", JNull);
    if Truthy(text) then
      var name :- TextOf(text);
      Success([name])
    else Success([])
  }

  /** `[g.get('text', '') for g in genres if g.get('text')]`. */
  function GenreNames(genres: seq<JVal>): (r: Result<seq<string>, PyError>)
    ensures r.Success? ==> |r.value| <= |genres| && forall g :: g in r.value ==> g != []
  {
    if genres == [] then Success([])
    else
      var first :- GenreEntry(genres[0]);
      var rest :- GenreNames(genres[1..]);
      Success(first + rest)
  }

  /**
   * The genre names keep the entries' order and multiplicity: the names of a
   * concatenation are the names of its parts, concatenated.
   */
  lemma {:induction false} GenreNamesAppend(a: seq<JVal>, b: seq<JVal>)
    ensures GenreNames(a + b) == Joined(GenreNames(a), GenreNames(b))
  {
    if a == [] {
      assert a + b == b;
      assert GenreNames(b).Success? ==> [] + GenreNames(b).value == GenreNames(b).value;
    } else {
      assert (a + b)[0] == a[0] && (a + b)[1..] == a[1..] + b;
      GenreNamesAppend(a[1..], b);
      var e, x, y := GenreEntry(a[0]), GenreNames(a[1..]), GenreNames(b);
      if e.Success? && x.Success? && y.Success? {
        assert e.value + (x.value + y.value) == (e.value + x.value) + y.value;
      }
    }
  }

  /** A single genre entry contributes exactly its own name, if any. */
  lemma GenreNamesOne(g: JVal)
    ensures GenreNames([g]) == GenreEntry(g)
  {
    assert [g][1..] == [];
    assert GenreEntry(g).Success? ==> GenreEntry(g).value + [] == GenreEntry(g).value;
  }

  /** What one cast edge contributes: its name text when `edge.node.name` is truthy. */
  function CastEntry(edge: JVal): (r: Result<seq<string>, PyError>)
    ensures r.Success? ==> |r.value| <= 1
  {
    var name :- Dig(edge, ["node", "name"], JNull);
    if Truthy(name) then
      var text :- Dig(edge, ["node", "name", "nameText", "text"], JStr(""));
      var s :- TextOf(text);
      Success([s])
    else Success([])
  }

  /** The cast edges whose `node.name` is truthy, as their name texts. */
  function CastNames(edges: seq<JVal>): (r: Result<seq<string>, PyError>)
    ensures r.Success? ==> |r.value| <= |edges|
  {
    if edges == [] then Success([])
    else
      var first :- CastEntry(edges[0]);
      var rest :- CastNames(edges[1..]);
      Success(first + rest)
  }

  /** The cast names keep the edges' order and multiplicity. */
  lemma {:induction false} CastNamesAppend(a: seq<JVal>, b: seq<JVal>)
    ensures CastNames(a + b) == Joined(CastNames(a), CastNames(b))
  {
    if a == [] {
      assert a + b == b;
      assert CastNames(b).Success? ==> [] + CastNames(b).value == CastNames(b).value;
    } else {
      assert (a + b)[0] == a[0] && (a + b)[1..] == a[1..] + b;
      CastNamesAppend(a[1..], b);
      var e, x, y := CastEntry(a[0]), CastNames(a[1..]), CastNames(b);
      if e.Success? && x.Success? && y.Success? {
        assert e.value + (x.value + y.value) == (e.value + x.value) + y.value;
      }
    }
  }

  /** A single cast edge contributes exactly its own name, if any. */
  lemma CastNamesOne(edge: JVal)
    ensures CastNames([edge]) == CastEntry(edge)
  {
    assert [edge][1..] == [];
    assert CastEntry(edge).Success? ==> CastEntry(edge).value + [] == CastEntry(edge).value;
  }

  /** The plot: the stripped plain text when it is truthy. */
  function PlotOf(above: JVal): Result<Option<string>, PyError> {
    var plotVal :- Dig(above, ["plot", "plotText", "plainText"], JNull);
    if Truthy(plotVal) then
      var p :- StripText(plotVal);
      Success(Some(p))
    else Success(None)
  }

  /** `movie_data.get('aboveTheFoldData', {})`. */
  function Above(props: JVal): Result<JVal, PyError> {
    Get(props, "aboveTheFoldData", EmptyObj)
  }

  /** `above.get('titleText', {}).get('text', '').strip()`. */
  function TitleOf(above: JVal): Result<string, PyError> {
    var titleVal :- Dig(above, ["titleText", "text"], JStr(""));
    StripText(titleVal)
  }

  /** The fields of a movie after its title, as the page properties give them. */
  datatype Details = Details(
    year: Option<int>,
    rating: Option<real>,
    runtime: Option<string>,
    genres: seq<string>,
    director: Option<string>,
    cast: seq<string>,
    plot: Option<string>)

  /** The fields after the title, read in the source's order; the first exception wins. */
  function DetailsOf(props: JVal, above: JVal): (r: Result<Details, PyError>)
    ensures r.Success? ==> |r.value.cast| <= MaxCast
  {
    var yearVal :- Dig(above, ["releaseYear", "year"], JNull);
    var year :- YearField(yearVal);
    var ratingVal :- Dig(above, ["ratingsSummary", "aggregateRating"], JNull);
    var rating :- RatingField(ratingVal);
    var runtimeVal :- RuntimeOf(above);
    var runtime :- TextField(runtimeVal);
    var genresVal :- Dig(above, ["genres", "genres"], JArr([]));
    var genreItems :- Elements(genresVal);
    var genres :- GenreNames(genreItems);
    var directorVal :- DirectorOf(props, above);
    var director :- TextField(directorVal);
    var edgesVal :- Dig(above, ["castPageTitle", "edges"], JArr([]));
    var edges :- Slice(edgesVal, MaxCast);
    var cast :- CastNames(edges);
    var plot :- PlotOf(above);
    Success(Details(year, rating, runtime, genres, director, cast, plot))
  }

  /**
   * A movie from the page properties: nothing when the title is blank,
   * an exception when the data has the wrong shape or the movie fails validation.
   */
  function PropsMovie(props: JVal, id: string, url: string, now: int): (r: Result<Option<Movie>, PyError>)
    ensures r.Success? && r.value.Some? ==>
      && ValidMovie(r.value.value)
      && r.value.value.imdbId == Some(id) && r.value.value.url == Some(url)
      && r.value.value.scrapedAt == now
      && |r.value.value.cast| <= MaxCast
    ensures r == Success(None) <==> Above(props).Success? && TitleOf(Above(props).value) == Success([])
    ensures r.Success? && r.value.Some? ==>
      && Above(props).Success?
      && TitleOf(Above(props).value) == Success(r.value.value.title)
      && DetailsOf(props, Above(props).value).Success?
      && var d := DetailsOf(props, Above(props).value).value;
         r.value.value == Movie(r.value.value.title, d.year, d.rating, d.runtime, d.genres, d.director, d.cast,
                                TruncatePlot(d.plot), Some(id), Some(url), now)
    ensures (Above(props).Success? && TitleOf(Above(props).value).Success? &&
             TitleOf(Above(props).value).value != [] && DetailsOf(props, Above(props).value).Success?) ==>
      var title, d := TitleOf(Above(props).value).value, DetailsOf(props, Above(props).value).value;
      (r.Success? <==> |title| <= MaxTitleLength && RatingOk(d.rating) && YearOk(d.year))
  {
    var above :- Above(props);
    var title :- TitleOf(above);
    if title == [] then Success(None)
    else
      assert !Blank(title) by { assert !Text.IsSpace(title[0]); assert !Text.AllSpace(title); }
      var d :- DetailsOf(props, above);
      match NewMovie(title, d.year, d.rating, d.runtime, d.genres, d.director, d.cast, d.plot, Some(id), Some(url), now)
      case Success(m) => Success(Some(m))
      case Failure(_) => Failure(ValueError)
  }

  // ---------------------------------------------------------------------------
  // Detail pages, markup
  // ---------------------------------------------------------------------------

  /** `[t for t in texts[:limit] if t]`, the multi-text extraction. */
  function NonEmptyTexts(texts: seq<string>, limit: int): (r: seq<string>)
    ensures limit >= 0 ==> |r| <= limit
    ensures forall t :: t in r ==> t != [] && t in Text.PySlice(texts, limit)
    ensures forall t :: t in Text.PySlice(texts, limit) && t != [] ==> t in r
  {
    var kept := Text.PySlice(texts, limit);
    Filter(kept)
  }

  /** The non-empty texts, in order. */
  function Filter(texts: seq<string>): (r: seq<string>)
    ensures |r| <= |texts|
    ensures forall t :: t in r <==> t in texts && t != []
  {
    if texts == [] then []
    else (if texts[0] != [] then [texts[0]] else []) + Filter(texts[1..])
  }

  /**
   * The filter keeps order and multiplicity: filtering a concatenation
   * concatenates the filtered parts, and one text is kept exactly when it is non-empty.
   */
  lemma {:induction false} FilterAppend(a: seq<string>, b: seq<string>)
    ensures Filter(a + b) == Filter(a) + Filter(b)
    ensures |a| == 1 ==> Filter(a) == (if a[0] != [] then a else [])
  {
    if a != [] {
      assert (a + b)[0] == a[0] && (a + b)[1..] == a[1..] + b;
      FilterAppend(a[1..], b);
      var head := if a[0] != [] then [a[0]] else [];
      assert head + (Filter(a[1..]) + Filter(b)) == (head + Filter(a[1..])) + Filter(b);
      if |a| == 1 {
        assert a[1..] == [];
        assert a == [a[0]];
      }
    } else {
      assert a + b == b;
    }
  }

  /** The text before the first `/`, as `text.split('/')[0]`. */
  function BeforeSlash(text: string): (r: string)
    ensures |r| <= |text| && r == text[..|r|] && '/' !in r
    ensures |r| < |text| ==> text[|r|] == '/'
  {
    if text == [] || text[0] == '/' then [] else [text[0]] + BeforeSlash(text[1..])
  }

  /**
   * A movie from the page markup: nothing without a title or when the movie
   * fails validation. `parseFloat` is Python's `float` on text.
   */
  function MarkupMovie(page: Page, id: string, url: string, now: int, parseFloat: string -> Option<real>): (r: Option<Movie>)
    ensures r.Some? ==>
      && ValidMovie(r.value)
      && r.value.imdbId == Some(id) && r.value.url == Some(url)
      && r.value.scrapedAt == now
      && |r.value.cast| <= MaxCast && |r.value.genres| <= MultiTextLimit
    ensures page.heroTitle.None? || Blank(page.heroTitle.value) ==> r.None?
    ensures page.heroTitle.Some? && !Blank(page.heroTitle.value) ==>
      (r.Some? <==> |page.heroTitle.value| <= MaxTitleLength
                    && RatingOk(MarkupRating(page, parseFloat)) && YearOk(MarkupYear(page)))
    ensures r.Some? ==>
      r.value == Movie(page.heroTitle.value, MarkupYear(page), MarkupRating(page, parseFloat), page.runtimeText,
                       NonEmptyTexts(page.genreTexts, MultiTextLimit), page.directorText,
                       NonEmptyTexts(page.castTexts, MaxCast), TruncatePlot(page.plotText), Some(id), Some(url), now)
  {
    if page.heroTitle.None? || page.heroTitle.value == [] then None
    else
      var genres := NonEmptyTexts(page.genreTexts, MultiTextLimit);
      var cast := NonEmptyTexts(page.castTexts, MaxCast);
      match NewMovie(page.heroTitle.value, MarkupYear(page), MarkupRating(page, parseFloat), page.runtimeText, genres,
                     page.directorText, cast, page.plotText, Some(id), Some(url), now)
      case Success(m) => Some(m)
      case Failure(_) => None
  }

  /** The year of the markup: the year pattern on a non-empty release text. */
  function MarkupYear(page: Page): Option<int> {
    if page.releaseText.Some? && page.releaseText.value != [] then FindYear(page.releaseText.value) else None
  }

  /** The rating of the markup: `float` of the text before the first `/`, when the text is non-empty. */
  function MarkupRating(page: Page, parseFloat: string -> Option<real>): Option<real> {
    if page.ratingText.Some? && page.ratingText.value != [] then parseFloat(BeforeSlash(page.ratingText.value)) else None
  }

  /** `imdb_id.startswith('tt')` on a non-empty identifier. */
  predicate HasTitlePrefix(id: string) { |id| >= 2 && id[..2] == "tt" }

  /** The detail page of `id`: its page properties when a block has them, its markup otherwise. */
  function MovieFromPage(page: Page, id: string, url: string, now: int, parseFloat: string -> Option<real>): (r: Option<Movie>)
    ensures r.Some? ==>
      && ValidMovie(r.value)
      && r.value.imdbId == Some(id) && r.value.url == Some(url)
      && r.value.scrapedAt == now
      && |r.value.cast| <= MaxCast
    ensures FirstPageProps(page.scripts).None? ==> r == MarkupMovie(page, id, url, now, parseFloat)
    ensures FirstPageProps(page.scripts).Some? ==>
      var p := PropsMovie(FirstPageProps(page.scripts).value, id, url, now);
      r == (if p.Success? then p.value else None)
  {
    match FirstPageProps(page.scripts)
    case None => MarkupMovie(page, id, url, now, parseFloat)
    case Some(props) =>
      match PropsMovie(props, id, url, now)
      case Success(m) => m
      case Failure(_) => None
  }

  /** Once a block has page properties, nothing the markup selectors pick changes the movie. */
  lemma MarkupIgnoredWithPageProps(page: Page, other: Page, id: string, url: string, now: int,
                                   parseFloat: string -> Option<real>)
    requires other.scripts == page.scripts
    requires FirstPageProps(page.scripts).Some?
    ensures MovieFromPage(page, id, url, now, parseFloat) == MovieFromPage(other, id, url, now, parseFloat)
  {
  }
}
