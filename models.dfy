/**
 * The scraper's two value objects. `Movie` is a validating record: its
 * construction rejects a blank or over-long title, an out-of-range rating or
 * year, and silently shortens an over-long plot. It converts to a flat
 * dictionary of primitive values and back. `SearchResult` only rejects a blank title.
 */
module Models {
  import opened Wrappers
  import Text

  const MaxTitleLength: nat := 200
  const MaxPlotLength: nat := 1000
  /** Characters of the original plot kept when it is shortened. */
  const KeptPlotLength: nat := 997
  const Ellipsis: string := "..."
  const MinRating: real := 0.0
  const MaxRating: real := 10.0
  const MinYear: int := 1900
  const MaxYear: int := 2030

  /** `scrapedAt` is the creation time as a clock reading. */
  datatype Movie = Movie(
    title: string,
    year: Option<int>,
    rating: Option<real>,
    runtime: Option<string>,
    genres: seq<string>,
    director: Option<string>,
    cast: seq<string>,
    plot: Option<string>,
    imdbId: Option<string>,
    url: Option<string>,
    scrapedAt: int)

  datatype SearchResult = SearchResult(
    title: string,
    year: Option<int>,
    imdbId: Option<string>,
    url: Option<string>,
    relevanceScore: real)

  /** The `ValueError`s raised by the validation. */
  datatype ValidationError = EmptyTitle | TitleTooLong | InvalidRating | InvalidYear

  predicate Blank(s: string) { Text.Strip(s) == [] }

  predicate RatingOk(rating: Option<real>) {
    rating.None? || MinRating <= rating.value <= MaxRating
  }

  predicate YearOk(year: Option<int>) {
    year.None? || MinYear <= year.value <= MaxYear
  }

  /** Every movie that construction can produce satisfies this. */
  ghost predicate ValidMovie(m: Movie) {
    && !Blank(m.title)
    && |m.title| <= MaxTitleLength
    && RatingOk(m.rating)
    && YearOk(m.year)
    && (m.plot.Some? ==> |m.plot.value| <= MaxPlotLength)
  }

  /** The plot after construction: a plot over the limit keeps its first 997 characters and gains "...". */
  function TruncatePlot(plot: Option<string>): (r: Option<string>)
    ensures r.Some? <==> plot.Some?
    ensures r.Some? ==> |r.value| <= MaxPlotLength
    ensures plot.Some? && |plot.value| <= MaxPlotLength ==> r == plot
    ensures plot.Some? && |plot.value| > MaxPlotLength ==>
      && |r.value| == MaxPlotLength
      && r.value[..KeptPlotLength] == plot.value[..KeptPlotLength]
      && r.value[KeptPlotLength..] == Ellipsis
  {
    if plot.Some? && |plot.value| > MaxPlotLength then
      Some(plot.value[..KeptPlotLength] + Ellipsis)
    else plot
  }

  /**
   * `Movie(...)`: the checks run in the order title, title length, rating,
   * year; the first that fails decides the error.
   */
  function NewMovie(
    title: string, year: Option<int>, rating: Option<real>, runtime: Option<string>,
    genres: seq<string>, director: Option<string>, cast: seq<string>, plot: Option<string>,
    imdbId: Option<string>, url: Option<string>, scrapedAt: int): (r: Result<Movie, ValidationError>)
    ensures r.Success? <==> !Blank(title) && |title| <= MaxTitleLength && RatingOk(rating) && YearOk(year)
    ensures r.Failure? ==>
      r.error == (if Blank(title) then EmptyTitle
                  else if |title| > MaxTitleLength then TitleTooLong
                  else if !RatingOk(rating) then InvalidRating
                  else InvalidYear)
    ensures r.Success? ==> ValidMovie(r.value)
    ensures r.Success? ==> r.value.plot == TruncatePlot(plot)
    ensures r.Success? ==>
      r.value == Movie(title, year, rating, runtime, genres, director, cast, r.value.plot, imdbId, url, scrapedAt)
  {
    if Blank(title) then Failure(EmptyTitle)
    else if |title| > MaxTitleLength then Failure(TitleTooLong)
    else if !RatingOk(rating) then Failure(InvalidRating)
    else if !YearOk(year) then Failure(InvalidYear)
    else Success(Movie(title, year, rating, runtime, genres, director, cast, TruncatePlot(plot), imdbId, url, scrapedAt))
  }

  /** Constructing a movie again from a constructed movie's fields gives the same movie. */
  lemma Revalidate(m: Movie)
    requires ValidMovie(m)
    ensures NewMovie(m.title, m.year, m.rating, m.runtime, m.genres, m.director, m.cast, m.plot,
                     m.imdbId, m.url, m.scrapedAt) == Success(m)
  {
  }

  /** The boundary cases: both rating bounds and both year bounds are inclusive, a title of spaces is empty, a long plot is cut to 997 characters and "...". */
  lemma ValidationBoundaries(plot: string)
    requires |plot| == 1050
    ensures NewMovie("M", None, Some(10.1), None, [], None, [], None, None, None, 0) == Failure(InvalidRating)
    ensures NewMovie("M", None, Some(10.0), None, [], None, [], None, None, None, 0).Success?
    ensures NewMovie("M", None, Some(0.0), None, [], None, [], None, None, None, 0).Success?
    ensures NewMovie("M", None, Some(-0.1), None, [], None, [], None, None, None, 0) == Failure(InvalidRating)
    ensures NewMovie("M", Some(1899), None, None, [], None, [], None, None, None, 0) == Failure(InvalidYear)
    ensures NewMovie("M", Some(1900), None, None, [], None, [], None, None, None, 0).Success?
    ensures NewMovie("M", Some(2030), None, None, [], None, [], None, None, None, 0).Success?
    ensures NewMovie("M", Some(2031), None, None, [], None, [], None, None, None, 0) == Failure(InvalidYear)
    ensures NewMovie("   ", None, None, None, [], None, [], None, None, None, 0) == Failure(EmptyTitle)
    ensures NewMovie("M", None, None, None, [], None, [], Some(plot), None, None, 0).value.plot
            == Some(plot[..997] + "...")
  {
    assert !Blank("M") by { assert !Text.IsSpace("M"[0]); }
    assert Blank("   ") by { assert Text.AllSpace("   "); }
  }

  /** `SearchResult(...)`: only a blank title is rejected; the score is not range-checked. */
  function NewSearchResult(title: string, year: Option<int>, imdbId: Option<string>, url: Option<string>,
                           relevanceScore: real): (r: Result<SearchResult, ValidationError>)
    ensures r.Success? <==> !Blank(title)
    ensures r.Failure? ==> r.error == EmptyTitle
    ensures r.Success? ==> r.value == SearchResult(title, year, imdbId, url, relevanceScore)
  {
    if Blank(title) then Failure(EmptyTitle)
    else Success(SearchResult(title, year, imdbId, url, relevanceScore))
  }

  // ---------------------------------------------------------------------------
  // The flat exchange form (`to_dict` / `from_dict`)
  // ---------------------------------------------------------------------------

  /** A primitive value in the exchange dictionary; `VDateTime` is a parsed timestamp. */
  datatype Val =
    | VNone
    | VStr(s: string)
    | VInt(i: int)
    | VFloat(r: real)
    | VList(items: seq<string>)
    | VDateTime(t: int)

  const MovieFields: set<string> :=
    {"title", "year", "rating", "runtime", "genres", "director", "cast", "plot", "imdb_id", "url", "scraped_at"}

  function OptText(o: Option<string>): Val { if o.Some? then VStr(o.value) else VNone }
  function OptInt(o: Option<int>): Val { if o.Some? then VInt(o.value) else VNone }
  function OptFloat(o: Option<real>): Val { if o.Some? then VFloat(o.value) else VNone }

  /** `Movie.to_dict()`: `isoFormat` renders the timestamp as ISO-8601 text. */
  function MovieToDict(m: Movie, isoFormat: int -> string): (d: map<string, Val>)
    ensures d.Keys == MovieFields
    ensures d["scraped_at"] == VStr(isoFormat(m.scrapedAt))
  {
    map[
      "title" := VStr(m.title),
      "year" := OptInt(m.year),
      "rating" := OptFloat(m.rating),
      "runtime" := OptText(m.runtime),
      "genres" := VList(m.genres),
      "director" := OptText(m.director),
      "cast" := VList(m.cast),
      "plot" := OptText(m.plot),
      "imdb_id" := OptText(m.imdbId),
      "url" := OptText(m.url),
      "scraped_at" := VStr(isoFormat(m.scrapedAt))]
  }

  /** Why `Movie.from_dict` can fail. */
  datatype FromDictError =
    | UnknownField       // `cls(**data)` with a key that is not a field
    | MissingTitle       // `cls(**data)` without the one required field
    | BadTimestamp       // `datetime.fromisoformat` rejects the text
    | WrongType          // a value of a kind the field does not hold
    | Invalid(reason: ValidationError)

  /** The dictionary as `from_dict` leaves it (it rewrites `scraped_at` in place), and the result. */
  datatype FromDictOutcome = FromDictOutcome(data: map<string, Val>, movie: Result<Movie, FromDictError>)

  function FieldOr(data: map<string, Val>, key: string, default: Val): Val {
    if key in data then data[key] else default
  }

  function AsOptText(v: Val): Result<Option<string>, FromDictError> {
    match v
    case VNone => Success(None)
    case VStr(s) => Success(Some(s))
    case _ => Failure(WrongType)
  }

  function AsOptInt(v: Val): Result<Option<int>, FromDictError> {
    match v
    case VNone => Success(None)
    case VInt(i) => Success(Some(i))
    case _ => Failure(WrongType)
  }

  function AsOptReal(v: Val): Result<Option<real>, FromDictError> {
    match v
    case VNone => Success(None)
    case VInt(i) => Success(Some(i as real))
    case VFloat(r) => Success(Some(r))
    case _ => Failure(WrongType)
  }

  function AsList(v: Val): Result<seq<string>, FromDictError> {
    match v
    case VList(xs) => Success(xs)
    case _ => Failure(WrongType)
  }

  /** `cls(**data)` once `scraped_at` has been converted; a missing `scraped_at` defaults to `now`. */
  function MovieFromFields(data: map<string, Val>, now: int): (r: Result<Movie, FromDictError>)
    ensures r.Success? ==> ValidMovie(r.value)
    ensures r.Success? ==> data.Keys <= MovieFields && "title" in data
  {
    if !(data.Keys <= MovieFields) then Failure(UnknownField)
    else if "title" !in data then Failure(MissingTitle)
    else if data["title"].VNone? then Failure(Invalid(EmptyTitle))
    else if !data["title"].VStr? then Failure(WrongType)
    else
      var year :- AsOptInt(FieldOr(data, "year", VNone));
      var rating :- AsOptReal(FieldOr(data, "rating", VNone));
      var runtime :- AsOptText(FieldOr(data, "runtime", VNone));
      var genres :- AsList(FieldOr(data, "genres", VList([])));
      var director :- AsOptText(FieldOr(data, "director", VNone));
      var cast :- AsList(FieldOr(data, "cast", VList([])));
      var plot :- AsOptText(FieldOr(data, "plot", VNone));
      var imdbId :- AsOptText(FieldOr(data, "imdb_id", VNone));
      var url :- AsOptText(FieldOr(data, "url", VNone));
      var stamp := FieldOr(data, "scraped_at", VDateTime(now));
      if !stamp.VDateTime? then Failure(WrongType)
      else
        match NewMovie(data["title"].s, year, rating, runtime, genres, director, cast, plot, imdbId, url, stamp.t)
        case Success(m) => Success(m)
        case Failure(e) => Failure(Invalid(e))
  }

  /**
   * `Movie.from_dict(data)`: a `scraped_at` string is parsed with `isoParse`
   * and written back into `data` before the movie is built.
   */
  function MovieFromDict(data: map<string, Val>, isoParse: string -> Option<int>, now: int): (r: FromDictOutcome)
    ensures r.movie.Success? ==> ValidMovie(r.movie.value)
    ensures r.data.Keys == data.Keys
    ensures forall k :: k in data && k != "scraped_at" ==> r.data[k] == data[k]
  {
    if "scraped_at" in data && data["scraped_at"].VStr? then
      match isoParse(data["scraped_at"].s)
      case None => FromDictOutcome(data, Failure(BadTimestamp))
      case Some(t) =>
        var converted := data["scraped_at" := VDateTime(t)];
        FromDictOutcome(converted, MovieFromFields(converted, now))
    else FromDictOutcome(data, MovieFromFields(data, now))
  }

  /** What the first keys of a movie's dictionary hold, once its timestamp is converted back. */
  lemma ToDictReads(m: Movie, d: map<string, Val>, isoFormat: int -> string)
    requires d == MovieToDict(m, isoFormat)["scraped_at" := VDateTime(m.scrapedAt)]
    ensures d.Keys == MovieFields
    ensures && d["title"] == VStr(m.title) && d["year"] == OptInt(m.year) && d["rating"] == OptFloat(m.rating)
            && d["runtime"] == OptText(m.runtime) && d["genres"] == VList(m.genres)
  {
  }

  /** What the other keys of a movie's dictionary hold, once its timestamp is converted back. */
  lemma ToDictReadsRest(m: Movie, d: map<string, Val>, isoFormat: int -> string)
    requires d == MovieToDict(m, isoFormat)["scraped_at" := VDateTime(m.scrapedAt)]
    ensures && d["director"] == OptText(m.director) && d["cast"] == VList(m.cast)
            && d["plot"] == OptText(m.plot) && d["imdb_id"] == OptText(m.imdbId) && d["url"] == OptText(m.url)
            && d["scraped_at"] == VDateTime(m.scrapedAt)
  {
  }

  /** Each field of a movie's dictionary, once its timestamp is converted back, reads as the movie's. */
  lemma ToDictConversions(m: Movie, d: map<string, Val>, isoFormat: int -> string, now: int)
    requires d == MovieToDict(m, isoFormat)["scraped_at" := VDateTime(m.scrapedAt)]
    ensures d.Keys == MovieFields && d["title"] == VStr(m.title)
    ensures AsOptInt(FieldOr(d, "year", VNone)) == Success(m.year)
    ensures AsOptReal(FieldOr(d, "rating", VNone)) == Success(m.rating)
    ensures AsOptText(FieldOr(d, "runtime", VNone)) == Success(m.runtime)
    ensures AsList(FieldOr(d, "genres", VList([]))) == Success(m.genres)
    ensures AsOptText(FieldOr(d, "director", VNone)) == Success(m.director)
    ensures AsList(FieldOr(d, "cast", VList([]))) == Success(m.cast)
    ensures AsOptText(FieldOr(d, "plot", VNone)) == Success(m.plot)
    ensures AsOptText(FieldOr(d, "imdb_id", VNone)) == Success(m.imdbId)
    ensures AsOptText(FieldOr(d, "url", VNone)) == Success(m.url)
    ensures FieldOr(d, "scraped_at", VDateTime(now)) == VDateTime(m.scrapedAt)
  {
    ToDictReads(m, d, isoFormat);
    ToDictReadsRest(m, d, isoFormat);
  }

  /** The fields of a movie's dictionary, once its timestamp is converted back, rebuild the movie. */
  lemma FieldsRoundTrip(m: Movie, d: map<string, Val>, isoFormat: int -> string, now: int)
    requires ValidMovie(m)
    requires d == MovieToDict(m, isoFormat)["scraped_at" := VDateTime(m.scrapedAt)]
    ensures MovieFromFields(d, now) == Success(m)
  {
    ToDictConversions(m, d, isoFormat, now);
    Revalidate(m);
  }

  /**
   * `from_dict(to_dict(m))` gives back `m` for every constructed movie, provided
   * the timestamp text parses back to the same instant; the dictionary passed in
   * is left holding the parsed timestamp.
   */
  lemma {:induction false} MovieDictRoundTrip(m: Movie, isoFormat: int -> string, isoParse: string -> Option<int>, now: int)
    requires ValidMovie(m)
    requires isoParse(isoFormat(m.scrapedAt)) == Some(m.scrapedAt)
    ensures MovieFromDict(MovieToDict(m, isoFormat), isoParse, now).movie == Success(m)
    ensures MovieFromDict(MovieToDict(m, isoFormat), isoParse, now).data
            == MovieToDict(m, isoFormat)["scraped_at" := VDateTime(m.scrapedAt)]
  {
    var d := MovieToDict(m, isoFormat)["scraped_at" := VDateTime(m.scrapedAt)];
    FieldsRoundTrip(m, d, isoFormat, now);
  }

  /** `SearchResult.to_dict()`. */
  function SearchResultToDict(r: SearchResult): (d: map<string, Val>)
    ensures d.Keys == {"title", "year", "imdb_id", "url", "relevance_score"}
  {
    map[
      "title" := VStr(r.title),
      "year" := OptInt(r.year),
      "imdb_id" := OptText(r.imdbId),
      "url" := OptText(r.url),
      "relevance_score" := VFloat(r.relevanceScore)]
  }

  /** The dictionary of a search result determines the result: no field is lost. */
  lemma SearchResultToDictInjective(a: SearchResult, b: SearchResult)
    requires SearchResultToDict(a) == SearchResultToDict(b)
    ensures a == b
  {
    var da, db := SearchResultToDict(a), SearchResultToDict(b);
    assert da["title"] == db["title"] && da["year"] == db["year"] && da["imdb_id"] == db["imdb_id"];
    assert da["url"] == db["url"] && da["relevance_score"] == db["relevance_score"];
  }
}
