/** The movie-data gateway of the app: it builds OMDb request URLs, guards
    IMDb identifiers, and normalises the catalog's JSON records into the app's
    `Movie` and `MovieDetails` shapes, for single lookups, searches and the
    fixed category lists. The network is a parameter: a total function from a
    request URL to the decoded JSON record or the failure the request ended in. */
module MovieApi {
  import opened Wrappers
  import opened JsText

  // ---------------------------------------------------------------------------
  // Configuration

  const OmdbApiKey := "487adc30"
  const OmdbBaseUrl := "https://www.omdbapi.com"

  /** The number of identifiers a category listing uses when no limit is given. */
  const DefaultCategoryLimit := 5

  /** The search page asked for when no page is given. */
  const DefaultPage := 1

  // ---------------------------------------------------------------------------
  // The catalog's records and the app's records

  /** A JSON object as the catalog returns it, field by field. Only string
      fields are modelled; a field that is absent (or JSON null) is `None`. */
  datatype RawRecord = RawRecord(
    response: Option<string>,                // "Response": "True" or "False"
    error: Option<string>,                   // "Error"
    imdbId: Option<string>,                  // "imdbID"
    title: Option<string>,                   // "Title"
    plot: Option<string>,                    // "Plot"
    poster: Option<string>,                  // "Poster"
    year: Option<string>,                    // "Year"
    genre: Option<string>,                   // "Genre", e.g. "Action, Drama"
    runtime: Option<string>,                 // "Runtime", e.g. "142 min"
    imdbVotes: Option<string>,               // "imdbVotes", e.g. "2,345,678"
    imdbRating: Option<string>,              // "imdbRating"
    rated: Option<string>,                   // "Rated"
    totalResults: Option<string>,            // "totalResults" of a search
    search: Option<seq<Option<RawRecord>>>)  // "Search": the records a search found

  /** `parseFloat(imdbRating) || 0`. Floating-point parsing is not modelled: the
      rating carries the text it is read from. */
  datatype Rating = Rating(raw: Option<string>)

  /** A movie as the list screens use it. */
  datatype Movie = Movie(
    id: nat,
    title: string,
    overview: string,
    posterPath: Option<string>,
    backdropPath: Option<string>,
    voteAverage: Rating,
    releaseDate: string,
    genreIds: seq<nat>)

  /** A genre of the details screen; `id` is its position in the genre text. */
  datatype Genre = Genre(id: nat, name: string)

  /** A movie as the details screen uses it. Fields the catalog never provides
      get fixed values. */
  datatype MovieDetails = MovieDetails(
    id: JsInt,
    title: Option<string>,
    originalTitle: Option<string>,
    originalLanguage: string,
    overview: Option<string>,
    backdropPath: Option<string>,
    posterPath: Option<string>,
    voteAverage: Rating,
    voteCount: int,
    releaseDate: string,
    runtime: Option<int>,
    genres: seq<Genre>,
    adult: bool,
    budget: int,
    homepage: Option<string>,
    imdbId: Option<string>,
    popularity: int,
    productionCompanies: seq<string>,
    productionCountries: seq<string>,
    revenue: int,
    spokenLanguages: seq<string>,
    status: string,
    tagline: Option<string>,
    video: bool,
    belongsToCollection: Option<string>)

  /** One page of search results. `totalResults` is `parseInt` of the catalog's count. */
  datatype SearchPage = SearchPage(movies: seq<Movie>, totalResults: JsInt, currentPage: int, error: Option<string>)

  // ---------------------------------------------------------------------------
  // The network

  /** How a request can fail before a JSON record is available. */
  datatype FetchFailure =
    | TimedOut                       // the request was aborted by its timer
    | TransportError(message: string) // `fetch` rejected; its message, possibly empty
    | HttpError(body: string)        // the status was not ok; the response text
    | InvalidJson(message: string)   // the body was not JSON

  /** How a gateway call can be rejected. */
  datatype ApiError =
    | FetchFailed(failure: FetchFailure)
    | SearchListMissing              // a search response without "Search" and not "False"

  /** The network: the outcome of requesting a URL. */
  type Fetch = string -> Result<RawRecord, FetchFailure>

  /** `encodeURIComponent`, not modelled beyond being a function. */
  type Encoder = string -> string

  const NoConnectionHint := "Please check your internet connection and try again."
  const TimeoutMessage := "Request timed out. " + NoConnectionHint

  /** The message of the error a failed request is rejected with. */
  function FailureMessage(f: FetchFailure): string {
    match f
    case TimedOut => TimeoutMessage
    case TransportError(m) => TransportPrefix + (if m != "" then m else NoConnectionHint)
    case HttpError(body) => HttpPrefix + body
    case InvalidJson(m) => m
  }

  const TransportPrefix := "Network error: "
  const HttpPrefix := "Network response was not ok: "

  /** The message says what went wrong: a failed transport carries its own
      message, or the connection hint when it has none; a failed status
      carries the response text; each after its own prefix. */
  lemma FailureMessageReadsBack(f: FetchFailure)
    ensures f.TimedOut? ==> FailureMessage(f) == TimeoutMessage
    ensures f.TransportError? ==>
              StartsWith(FailureMessage(f), TransportPrefix)
              && FailureMessage(f)[|TransportPrefix|..] == (if f.message != "" then f.message else NoConnectionHint)
    ensures f.HttpError? ==>
              StartsWith(FailureMessage(f), HttpPrefix) && FailureMessage(f)[|HttpPrefix|..] == f.body
    ensures f.InvalidJson? ==> FailureMessage(f) == f.message
  {
    match f
    case TransportError(m) =>
      var tail := if m != "" then m else NoConnectionHint;
      assert FailureMessage(f) == TransportPrefix + tail;
      assert (TransportPrefix + tail)[..|TransportPrefix|] == TransportPrefix;
      assert (TransportPrefix + tail)[|TransportPrefix|..] == tail;
    case HttpError(body) =>
      assert FailureMessage(f) == HttpPrefix + body;
      assert (HttpPrefix + body)[..|HttpPrefix|] == HttpPrefix;
      assert (HttpPrefix + body)[|HttpPrefix|..] == body;
    case _ =>
  }

  /** A timeout is reported with a message no transport or status failure produces. */
  lemma TimeoutIsDistinct(f: FetchFailure)
    requires f.TransportError? || f.HttpError?
    ensures FailureMessage(f) != FailureMessage(TimedOut)
  {
    assert FailureMessage(TimedOut)[0] == 'R';
    assert FailureMessage(f)[0] == 'N';
  }

  // ---------------------------------------------------------------------------
  // Endpoints

  const ByIdPrefix := OmdbBaseUrl + "/?i="
  const ApiKeySuffix := "&apikey=" + OmdbApiKey

  const ByTitlePrefix := OmdbBaseUrl + "/?t="
  const SearchPrefix := OmdbBaseUrl + "/?s="

  /** The by-title URL: the base with the `t` parameter, the encoded title, then the key. */
  function ByTitleUrl(title: string, encode: Encoder): (url: string)
    ensures |url| == |ByTitlePrefix| + |encode(title)| + |ApiKeySuffix|
    ensures StartsWith(url, ByTitlePrefix) && url[|url| - |ApiKeySuffix|..] == ApiKeySuffix
    ensures url[|ByTitlePrefix|..|url| - |ApiKeySuffix|] == encode(title)
  {
    var url := ByTitlePrefix + encode(title) + ApiKeySuffix;
    assert url[..|ByTitlePrefix|] == ByTitlePrefix;
    assert url[|ByTitlePrefix|..|url| - |ApiKeySuffix|] == encode(title);
    url
  }

  /** The by-identifier URL: the base with the `i` parameter, the identifier as it is, then the key. */
  function ByIdUrl(imdbId: string): (url: string)
    ensures |url| == |ByIdPrefix| + |imdbId| + |ApiKeySuffix|
    ensures StartsWith(url, ByIdPrefix) && url[|url| - |ApiKeySuffix|..] == ApiKeySuffix
    ensures url[|ByIdPrefix|..|url| - |ApiKeySuffix|] == imdbId
  {
    var url := ByIdPrefix + imdbId + ApiKeySuffix;
    assert url[..|ByIdPrefix|] == ByIdPrefix;
    assert url[|ByIdPrefix|..|url| - |ApiKeySuffix|] == imdbId;
    url
  }

  /** The search URL: the base with the `s` parameter, the encoded query, the
      page as decimal text, then the key. */
  function SearchUrl(query: string, page: int, encode: Encoder): (url: string)
    ensures StartsWith(url, SearchPrefix) && url[|url| - |ApiKeySuffix|..] == ApiKeySuffix
    ensures var q := |SearchPrefix| + |encode(query)|;
            q + |"&page="| + |IntText(page)| + |ApiKeySuffix| == |url|
            && url[|SearchPrefix|..q] == encode(query)
            && url[q..q + |"&page="|] == "&page="
            && url[q + |"&page="|..|url| - |ApiKeySuffix|] == IntText(page)
  {
    var url := SearchPrefix + encode(query) + "&page=" + IntText(page) + ApiKeySuffix;
    var q := |SearchPrefix| + |encode(query)|;
    assert url[..|SearchPrefix|] == SearchPrefix;
    assert url[|SearchPrefix|..q] == encode(query);
    assert url[q..q + |"&page="|] == "&page=";
    assert url[q + |"&page="|..|url| - |ApiKeySuffix|] == IntText(page);
    url
  }

  /** The identifier a by-identifier URL asks for. */
  function IdOfUrl(url: string): string
    requires |url| >= |ByIdPrefix| + |ApiKeySuffix|
  {
    url[|ByIdPrefix|..|url| - |ApiKeySuffix|]
  }

  /** A by-identifier URL names its identifier: it can be read back, so
      different identifiers are requested at different URLs. */
  lemma ByIdUrlRoundTrip(imdbId: string)
    ensures IdOfUrl(ByIdUrl(imdbId)) == imdbId
  {
    var url := ByIdUrl(imdbId);
    assert url == ByIdPrefix + imdbId + ApiKeySuffix;
    assert url[|ByIdPrefix|..|url| - |ApiKeySuffix|] == imdbId;
  }

  lemma ByIdUrlInjective(a: string, b: string)
    requires ByIdUrl(a) == ByIdUrl(b)
    ensures a == b
  {
    ByIdUrlRoundTrip(a);
    ByIdUrlRoundTrip(b);
  }

  /** The page number can be read back from a search URL. */
  lemma SearchUrlCarriesPage(query: string, page: int, encode: Encoder)
    ensures var url := SearchUrl(query, page, encode);
            var pageText := url[|url| - |ApiKeySuffix| - |IntText(page)|..|url| - |ApiKeySuffix|];
            ParseInt(pageText) == Int(page)
  {
    ParseIntText(page);
  }

  // ---------------------------------------------------------------------------
  // JavaScript value conversions used by the normalisation

  /** A string field is truthy when present and not empty. */
  predicate Truthy(v: Option<string>) {
    v.Some? && v.value != ""
  }

  /** `v || fallback` for a string field. */
  function OrElse(v: Option<string>, fallback: string): (r: string)
    ensures Truthy(v) ==> r == v.value
    ensures !Truthy(v) ==> r == fallback
  {
    if Truthy(v) then v.value else fallback
  }

  /** `String(v)`, as a template literal writes a field: an absent one reads "undefined". */
  function TemplateText(v: Option<string>): string {
    if v.Some? then v.value else "undefined"
  }

  // ---------------------------------------------------------------------------
  // Record normalisation (transformMovieData)

  /** The poster reference: absent when the field is missing, empty or the
      catalog's "N/A" placeholder, the field itself otherwise. */
  function PosterUrl(poster: Option<string>): (r: Option<string>)
    ensures r.None? <==> poster.None? || poster.value == "" || poster.value == "N/A"
    ensures r.Some? ==> r == poster
  {
    if Truthy(poster) && poster.value != "N/A" then poster else None
  }

  /** 0, 1, ..., n - 1. */
  function Positions(n: nat): (r: seq<nat>)
    ensures |r| == n && forall i :: 0 <= i < n ==> r[i] == i
  {
    seq(n, i => i)
  }

  /** The genre identifiers of a list record: one position per ", "-separated
      segment of a non-empty genre text, none otherwise. */
  function GenreIds(genre: Option<string>): (r: seq<nat>)
    ensures !Truthy(genre) ==> r == []
    ensures Truthy(genre) ==> |r| == |Split(genre.value, ", ")| >= 1
    ensures forall i :: 0 <= i < |r| ==> r[i] == i
  {
    if Truthy(genre) then Positions(|Split(genre.value, ", ")|) else []
  }

  /** An identifier string that `transformMovieData` accepts once its first
      "tt" is removed: one or more decimal digits. */
  predicate IsNumericId(s: string) {
    |s| > 0 && AllDigits(s)
  }

  /** `transformMovieData`: the list form of a catalog record, or `None` when
      the record or its identifier is missing, or the identifier without its
      first "tt" is not a non-empty run of decimal digits. */
  function TransformMovieData(movie: Option<RawRecord>): (r: Option<Movie>)
    ensures r.Some? <==> movie.Some? && Truthy(movie.value.imdbId)
                         && IsNumericId(RemoveFirst(movie.value.imdbId.value, "tt"))
    ensures r.Some? ==> var digits := RemoveFirst(movie.value.imdbId.value, "tt");
                        ParseInt(digits) == Int(r.value.id) && r.value.id == NumeralValue(digits, Decimal)
    ensures r.Some? ==> r.value.posterPath == r.value.backdropPath == PosterUrl(movie.value.poster)
    ensures r.Some? ==> r.value.title == OrElse(movie.value.title, "Unknown Title")
    ensures r.Some? ==> r.value.overview == OrElse(movie.value.plot, "")
    ensures r.Some? ==> r.value.releaseDate == OrElse(movie.value.year, "N/A")
    ensures r.Some? ==> r.value.genreIds == GenreIds(movie.value.genre)
  {
    if movie.None? || !Truthy(movie.value.imdbId) then None
    else
      var m := movie.value;
      var numericId := RemoveFirst(m.imdbId.value, "tt");
      if !IsNumericId(numericId) then None
      else
        // parseInt of a string of decimal digits is its decimal value
        ParseIntOfDigits(numericId, []);
        assert numericId + [] == numericId;
        var poster := PosterUrl(m.poster);
        Some(Movie(
          id := NumeralValue(numericId, Decimal),
          title := OrElse(m.title, "Unknown Title"),
          overview := OrElse(m.plot, ""),
          posterPath := poster,
          backdropPath := poster,
          voteAverage := Rating(m.imdbRating),
          releaseDate := OrElse(m.year, "N/A"),
          genreIds := GenreIds(m.genre)))
  }

  /** A record whose identifier is "tt" followed by `d` is kept exactly when
      `d` is a non-empty run of digits, and then its id is the value of `d`. */
  lemma TransformPrefixedId(rec: RawRecord, d: string)
    requires rec.imdbId == Some("tt" + d)
    ensures TransformMovieData(Some(rec)).Some? <==> IsNumericId(d)
    ensures TransformMovieData(Some(rec)).Some? ==> TransformMovieData(Some(rec)).value.id == NumeralValue(d, Decimal)
  {
    RemoveFirstOfPrefixed("tt", d);
    assert Truthy(rec.imdbId);
  }

  /** A record whose identifier is a bare run of digits is kept, with that value as id. */
  lemma TransformBareId(rec: RawRecord, d: string)
    requires rec.imdbId == Some(d) && IsNumericId(d)
    ensures TransformMovieData(Some(rec)).Some?
    ensures TransformMovieData(Some(rec)).value.id == NumeralValue(d, Decimal)
  {
    DigitsHaveNoTt(d);
    RemoveFirstAbsent(d, "tt");
  }

  /** "tt0111161" normalises to the id 111161. */
  lemma TransformShawshankId(rec: RawRecord)
    requires rec.imdbId == Some("tt0111161")
    ensures TransformMovieData(Some(rec)).Some?
    ensures TransformMovieData(Some(rec)).value.id == 111161
  {
    var d := "0111161";
    assert "tt0111161" == "tt" + d;
    assert rec.imdbId == Some("tt" + d);
    ShawshankDigits();
    TransformPrefixedId(rec, d);
  }

  lemma ShawshankDigits()
    ensures IsNumericId("0111161") && NumeralValue("0111161", Decimal) == 111161
  {
    assert "0111161" == "0" + "111161";
    Digits111161();
    LeadingZero("111161");
  }

  lemma Digits111161()
    ensures AllDigits("111161") && NumeralValue("111161", Decimal) == 111161
  {
    assert "111161"[..5] == "11116";
    assert "11116"[..4] == "1111";
    assert "1111"[..3] == "111";
    assert "111"[..2] == "11";
    assert "11"[..1] == "1";
    assert "1"[..0] == "";
  }

  /** A missing record, or one without an identifier, is dropped. */
  lemma TransformNeedsId(movie: Option<RawRecord>)
    requires movie.None? || movie.value.imdbId.None? || movie.value.imdbId == Some("")
    ensures TransformMovieData(movie) == None
  {
  }

  /** An identifier with a character that is not a digit outside its first "tt" is dropped. */
  lemma TransformRejectsNonDigit(rec: RawRecord, d: string, i: nat)
    requires rec.imdbId == Some("tt" + d) && i < |d| && !IsDigit(d[i])
    ensures TransformMovieData(Some(rec)) == None
  {
    TransformPrefixedId(rec, d);
  }

  // ---------------------------------------------------------------------------
  // The identifier guard (getMovieById, getMovieDetails)

  /** The identifier with the "tt" prefix added when it does not start with it. */
  function NormalizeId(id: string): (r: string)
    ensures StartsWith(r, "tt")
    ensures StartsWith(id, "tt") ==> r == id
    ensures !StartsWith(id, "tt") ==> r == "tt" + id
  {
    if StartsWith(id, "tt") then id else "tt" + id
  }

  /** `/^tt\d{7,8}$/`. */
  predicate IsImdbId(s: string) {
    (|s| == 9 || |s| == 10) && StartsWith(s, "tt") && AllDigits(s[2..])
  }

  /** An identifier is well formed exactly when it is "tt" and 7 or 8 digits. */
  lemma ImdbIdForm(d: string)
    ensures IsImdbId("tt" + d) <==> 7 <= |d| <= 8 && AllDigits(d)
  {
    assert ("tt" + d)[..2] == "tt" && ("tt" + d)[2..] == d;
  }

  /** The guard lets an identifier through exactly when it is already
      well-formed or is 7 or 8 bare digits. */
  lemma GuardAccepts(id: string)
    ensures IsImdbId(NormalizeId(id)) <==> IsImdbId(id) || (7 <= |id| <= 8 && AllDigits(id))
  {
    if StartsWith(id, "tt") {
      assert id[..2][0] == id[0] == 't' && !IsDigit(id[0]);
    } else {
      assert ("tt" + id)[2..] == id;
    }
  }

  /** The URLs a lookup of `id` requests: one when the guard passes, none otherwise. */
  function RequestedUrls(id: string): set<string> {
    var imdbId := NormalizeId(id);
    if IsImdbId(imdbId) then {ByIdUrl(imdbId)} else {}
  }

  /** Two networks that agree on the URLs a lookup requests. */
  predicate AgreeOn(f: Fetch, g: Fetch, urls: set<string>) {
    forall u :: u in urls ==> f(u) == g(u)
  }

  /** `getMovieById`: the normalised record for a well-formed identifier whose
      lookup succeeds with "Response": "True"; `None` for a malformed identifier
      (without a request), for a failed request, and for a "False" response. */
  function GetMovieById(id: string, fetch: Fetch): (r: Option<Movie>)
    ensures !IsImdbId(NormalizeId(id)) ==> r == None
    ensures r.Some? ==> var outcome := fetch(ByIdUrl(NormalizeId(id)));
                        outcome.Ok? && outcome.value.response == Some("True")
                        && r == TransformMovieData(Some(outcome.value))
    ensures var outcome := fetch(ByIdUrl(NormalizeId(id)));
            IsImdbId(NormalizeId(id)) && outcome.Ok? && outcome.value.response == Some("True")
            ==> r == TransformMovieData(Some(outcome.value))
    ensures fetch(ByIdUrl(NormalizeId(id))).Err? ==> r == None
  {
    var imdbId := NormalizeId(id);
    if !IsImdbId(imdbId) then None
    else
      match fetch(ByIdUrl(imdbId))
      case Err(_) => None
      case Ok(data) => if data.response == Some("True") then TransformMovieData(Some(data)) else None
  }

  /** The lookup depends on the network only at the URLs it requests; for a
      malformed identifier that is no URL at all. */
  lemma GetMovieByIdOnlyRequests(id: string, f: Fetch, g: Fetch)
    requires AgreeOn(f, g, RequestedUrls(id))
    ensures GetMovieById(id, f) == GetMovieById(id, g)
  {
    var imdbId := NormalizeId(id);
    if IsImdbId(imdbId) {
      assert ByIdUrl(imdbId) in RequestedUrls(id);
    }
  }

  /** A malformed identifier is answered without any request. */
  lemma MalformedIdNeverFetched(id: string, fetch: Fetch)
    requires !(IsImdbId(id) || (7 <= |id| <= 8 && AllDigits(id)))
    ensures RequestedUrls(id) == {}
    ensures GetMovieById(id, fetch) == None
    ensures GetMovieDetails(id, fetch) == None
  {
    GuardAccepts(id);
  }

  // ---------------------------------------------------------------------------
  // Details shaping (getMovieDetails)

  /** The runtime in minutes: the value of the first run of digits of a
      non-empty runtime text, or `None` (never 0) when there is no digit. */
  function RuntimeMinutes(runtime: Option<string>): (r: Option<int>)
    ensures r.None? <==> !Truthy(runtime) || !HasDigit(runtime.value)
    ensures r.Some? ==> var run := FirstDigitRun(runtime.value).value;
                        r.value == NumeralValue(runtime.value[run.0..run.1], Decimal)
    ensures r.Some? ==> r.value >= 0
  {
    if !Truthy(runtime) then None
    else
      match FirstDigitRun(runtime.value)
      case None => None
      case Some((i, j)) =>
        var digits := runtime.value[i..j];
        // parseInt of the matched digits is never NaN
        ParseIntOfDigits(digits, []);
        assert digits + [] == digits;
        Some(ParseInt(digits).n)
  }

  /** "142 min" is 142 minutes. */
  lemma RuntimeOf142Min(runtime: string)
    requires runtime == "142 min"
    ensures RuntimeMinutes(Some(runtime)) == Some(142)
  {
    var d, rest := "142", " min";
    assert runtime == d + rest;
    assert "142"[..2] == "14" && "14"[..1] == "1" && "1"[..0] == "";
    assert NumeralValue(d, Decimal) == 142;
    RuntimeOfLeadingDigits(d, rest);
  }

  /** A runtime text that starts with digits is read as those digits. */
  lemma RuntimeOfLeadingDigits(d: string, rest: string)
    requires IsNumericId(d)
    requires rest == [] || !IsDigit(rest[0])
    ensures RuntimeMinutes(Some(d + rest)) == Some(NumeralValue(d, Decimal))
  {
    var s := d + rest;
    assert IsDigit(s[0]);
    DigitRunLength(d, rest);
    assert FirstDigitRun(s) == Some((0, |d|));
    assert s[0..|d|] == d;
  }

  /** The release date: the year text followed by "-01-01". */
  function ReleaseDate(year: Option<string>): (r: string)
    ensures |r| >= 6 && r[|r| - 6..] == "-01-01"
    ensures year.Some? ==> |r| == |year.value| + 6 && r[..|year.value|] == year.value
    ensures year.None? ==> r == "undefined-01-01"
  {
    TemplateText(year) + "-01-01"
  }

  /** The vote count: `parseInt` of the votes text without its commas, 0 when that is NaN. */
  function VoteCount(votes: Option<string>): (v: int)
    ensures votes.None? ==> v == 0
    ensures votes.Some? && IsNumericId(RemoveAll(votes.value, ',')) ==> v == NumeralValue(RemoveAll(votes.value, ','), Decimal)
    ensures votes.Some? && TrimStart(RemoveAll(votes.value, ',')) == [] ==> v == 0
  {
    if votes.None? then
      // `votes?.replace(/,/g, '')` is undefined for a missing field, which parseInt reads as "undefined"
      assert !IsJsWhiteSpace('u') && !IsRadixDigit('u', Decimal);
      ParseInt("undefined").OrZero()
    else
      var digits := RemoveAll(votes.value, ',');
      if IsNumericId(digits) then
        ParseIntOfDigits(digits, []);
        assert digits + [] == digits;
        ParseInt(digits).OrZero()
      else
        ParseInt(digits).OrZero()
  }

  /** Missing votes count as 0. */
  lemma VoteCountMissing()
    ensures VoteCount(None) == 0
  {
  }

  /** Votes whose text, without commas and leading blanks, starts with
      neither a digit nor a sign count as 0: "N/A" is 0 votes. */
  lemma VoteCountNotANumber(votes: string)
    requires var t := TrimStart(RemoveAll(votes, ','));
             |t| > 0 && !IsDigit(t[0]) && t[0] != '-' && t[0] != '+'
    ensures VoteCount(Some(votes)) == 0
  {
  }

  lemma VoteCountNA(votes: string)
    requires votes == "N/A"
    ensures VoteCount(Some(votes)) == 0
  {
    assert RemoveAll(votes, ',') == votes;
    assert !IsJsWhiteSpace('N');
    VoteCountNotANumber(votes);
  }

  /** "2,345,678" is 2345678 votes: the groups are joined in order. */
  lemma VoteCountExample(votes: string)
    requires votes == "2,345,678"
    ensures VoteCount(Some(votes)) == 2345678
  {
    GroupsJoined(votes);
    Numeral2345678(RemoveAll(votes, ','));
  }

  lemma GroupsJoined(votes: string)
    requires votes == "2,345,678"
    ensures RemoveAll(votes, ',') == "2345678"
  {
    GroupsOf2345678(votes);
    ThreeGroupsJoined("2", "345", "678");
    Joined2345678("2", "345", "678");
  }

  lemma GroupsOf2345678(votes: string)
    requires votes == "2,345,678"
    ensures votes == ("2" + ",") + ("345" + ",") + "678"
  {
  }

  lemma Joined2345678(a: string, b: string, e: string)
    requires a == "2" && b == "345" && e == "678"
    ensures a + b + e == "2345678"
  {
  }

  /** Three groups of digits written with separating commas read as the digits joined. */
  lemma ThreeGroupsJoined(a: string, b: string, e: string)
    requires AllDigits(a) && AllDigits(b) && AllDigits(e)
    ensures RemoveAll((a + ",") + (b + ",") + e, ',') == a + b + e
  {
    RemoveAllAppend((a + ",") + (b + ","), e, ',');
    RemoveAllAppend(a + ",", b + ",", ',');
    GroupJoined(a + ",", a);
    GroupJoined(b + ",", b);
    assert ',' !in e;
  }

  /** A group of digits followed by its comma keeps just the digits. */
  lemma GroupJoined(g: string, digits: string)
    requires g == digits + "," && AllDigits(digits)
    ensures RemoveAll(g, ',') == digits
  {
    RemoveAllAppend(digits, ",", ',');
    RemoveAllOne(',', ',');
    assert ',' !in digits;
  }

  lemma Numeral2345678(digits: string)
    requires digits == "2345678"
    ensures IsNumericId(digits) && NumeralValue(digits, Decimal) == 2345678
  {
    assert digits[..6] == "234567";
    assert "234567"[..5] == "23456";
    assert "23456"[..4] == "2345";
    assert "2345"[..3] == "234";
    assert "234"[..2] == "23";
    assert "23"[..1] == "2";
    assert "2"[..0] == "";
  }

  /** Votes written as digits grouped by commas count as the value of those digits. */
  lemma VoteCountGrouped(votes: string)
    requires IsNumericId(RemoveAll(votes, ','))
    ensures VoteCount(Some(votes)) == NumeralValue(RemoveAll(votes, ','), Decimal)
  {
  }

  /** The genres of the details screen: one entry per ", "-separated segment,
      numbered by position; none when the genre field is missing. An empty
      genre text gives one entry with an empty name. */
  function Genres(genre: Option<string>): (r: seq<Genre>)
    ensures genre.None? ==> r == []
    ensures genre.Some? ==> |r| == |Split(genre.value, ", ")|
    ensures genre.Some? ==> forall i :: 0 <= i < |r| ==> r[i] == Genre(i, Split(genre.value, ", ")[i])
  {
    match genre
    case None => []
    case Some(g) =>
      var parts := Split(g, ", ");
      seq(|parts|, i requires 0 <= i < |parts| => Genre(i, parts[i]))
  }

  function GenreNames(genres: seq<Genre>): seq<string> {
    seq(|genres|, i requires 0 <= i < |genres| => genres[i].name)
  }

  /** The genre names, joined again with ", ", give back the genre text, and
      no name contains the separator. */
  lemma GenresRoundTrip(g: string)
    ensures Join(GenreNames(Genres(Some(g))), ", ") == g
    ensures forall i :: 0 <= i < |Genres(Some(g))| ==> forall j :: !OccursAt(Genres(Some(g))[i].name, ", ", j)
  {
    assert GenreNames(Genres(Some(g))) == Split(g, ", ");
    JoinSplit(g, ", ");
    forall i | 0 <= i < |Genres(Some(g))| ensures forall j :: !OccursAt(Genres(Some(g))[i].name, ", ", j) {
      SplitPiecesAvoidSeparator(g, ", ", i);
    }
  }

  /** "Action, Drama, Sci-Fi" gives Action, Drama and Sci-Fi numbered 0, 1 and 2. */
  lemma GenresExample(genre: string)
    requires genre == "Action, Drama, Sci-Fi"
    ensures Genres(Some(genre)) == [Genre(0, "Action"), Genre(1, "Drama"), Genre(2, "Sci-Fi")]
  {
    SplitGenreExample(genre);
  }

  lemma SplitGenreExample(genre: string)
    requires genre == "Action, Drama, Sci-Fi"
    ensures Split(genre, ", ") == ["Action", "Drama", "Sci-Fi"]
  {
    var parts := ["Action", "Drama", "Sci-Fi"];
    assert Join(parts, ", ") == "Action" + ", " + ("Drama" + ", " + "Sci-Fi") by {
      assert parts[1..] == ["Drama", "Sci-Fi"] && parts[1..][1..] == ["Sci-Fi"];
    }
    assert genre == "Action" + ", " + ("Drama" + ", " + "Sci-Fi");
    SplitJoin(parts, ", ");
  }

  /** The details screen marks a movie adult exactly when it is rated R or NC-17. */
  predicate IsAdultRating(rated: Option<string>) {
    rated == Some("R") || rated == Some("NC-17")
  }

  /** The details form of a catalog record that has an identifier. */
  function DetailsOf(data: RawRecord): (d: MovieDetails)
    requires data.imdbId.Some?
    ensures d.id == ParseInt(RemoveFirst(data.imdbId.value, "tt"))
    ensures d.title == d.originalTitle == data.title
    ensures d.overview == (if Truthy(data.plot) then data.plot else None)
    ensures d.posterPath == d.backdropPath == PosterUrl(data.poster)
    ensures d.voteAverage == Rating(data.imdbRating)
    ensures d.voteCount == VoteCount(data.imdbVotes)
    ensures d.releaseDate == ReleaseDate(data.year)
    ensures d.runtime == RuntimeMinutes(data.runtime)
    ensures d.genres == Genres(data.genre)
    ensures d.adult <==> IsAdultRating(data.rated)
    ensures d.imdbId == (if Truthy(data.imdbId) then data.imdbId else None)
    ensures d.originalLanguage == "en" && d.status == "Released"
    ensures d.budget == 0 && d.popularity == 0 && d.revenue == 0 && !d.video
    ensures d.homepage.None? && d.tagline.None? && d.belongsToCollection.None?
    ensures d.productionCompanies == [] && d.productionCountries == [] && d.spokenLanguages == []
  {
    var poster := PosterUrl(data.poster);
    MovieDetails(
      id := ParseInt(RemoveFirst(data.imdbId.value, "tt")),
      title := data.title,
      originalTitle := data.title,
      originalLanguage := "en",
      overview := if Truthy(data.plot) then data.plot else None,
      backdropPath := poster,
      posterPath := poster,
      voteAverage := Rating(data.imdbRating),
      voteCount := VoteCount(data.imdbVotes),
      releaseDate := ReleaseDate(data.year),
      runtime := RuntimeMinutes(data.runtime),
      genres := Genres(data.genre),
      adult := IsAdultRating(data.rated),
      budget := 0,
      homepage := None,
      imdbId := if Truthy(data.imdbId) then data.imdbId else None,
      popularity := 0,
      productionCompanies := [],
      productionCountries := [],
      revenue := 0,
      spokenLanguages := [],
      status := "Released",
      tagline := None,
      video := false,
      belongsToCollection := None)
  }

  /** `getMovieDetails`: the details of a well-formed identifier whose lookup
      succeeds with "Response": "True" and an identifier field; `None` otherwise,
      and without a request for a malformed identifier. */
  function GetMovieDetails(id: string, fetch: Fetch): (r: Option<MovieDetails>)
    ensures !IsImdbId(NormalizeId(id)) ==> r == None
    ensures r.Some? ==> var outcome := fetch(ByIdUrl(NormalizeId(id)));
                        outcome.Ok? && outcome.value.response == Some("True")
                        && outcome.value.imdbId.Some? && r == Some(DetailsOf(outcome.value))
    ensures var outcome := fetch(ByIdUrl(NormalizeId(id)));
            (IsImdbId(NormalizeId(id)) && outcome.Ok? && outcome.value.response == Some("True")
             && outcome.value.imdbId.Some?) ==> r == Some(DetailsOf(outcome.value))
    ensures fetch(ByIdUrl(NormalizeId(id))).Err? ==> r == None
  {
    var imdbId := NormalizeId(id);
    if !IsImdbId(imdbId) then None
    else
      match fetch(ByIdUrl(imdbId))
      case Err(_) => None
      case Ok(data) =>
        if data.response != Some("True") then None
        // `data.imdbID.replace(...)` throws for a missing identifier, and the error is caught
        else if data.imdbId.None? then None
        else Some(DetailsOf(data))
  }

  /** Where the list normalisation keeps a record, the details agree with it on
      the id, the poster, the backdrop, the rating and the genre numbering. */
  lemma DetailsAgreeWithMovie(data: RawRecord)
    requires TransformMovieData(Some(data)).Some?
    ensures var m := TransformMovieData(Some(data)).value;
            var d := DetailsOf(data);
            && d.id == Int(m.id)
            && d.posterPath == m.posterPath && d.backdropPath == m.backdropPath
            && d.voteAverage == m.voteAverage
            && (Truthy(data.genre) ==> forall i :: 0 <= i < |d.genres| ==> d.genres[i].id == m.genreIds[i])
            && (Truthy(data.genre) ==> |d.genres| == |m.genreIds|)
  {
    GenresNumbered(data.genre);
  }

  /** A non-empty genre text numbers its genres as the list form numbers its genre ids. */
  lemma GenresNumbered(genre: Option<string>)
    ensures Truthy(genre) ==> |Genres(genre)| == |GenreIds(genre)|
    ensures Truthy(genre) ==> forall i :: 0 <= i < |Genres(genre)| ==> Genres(genre)[i].id == GenreIds(genre)[i]
  {
  }

  /** The details depend on the network only at the URL the guard lets through. */
  lemma GetMovieDetailsOnlyRequests(id: string, f: Fetch, g: Fetch)
    requires AgreeOn(f, g, RequestedUrls(id))
    ensures GetMovieDetails(id, f) == GetMovieDetails(id, g)
  {
    var imdbId := NormalizeId(id);
    if IsImdbId(imdbId) {
      assert ByIdUrl(imdbId) in RequestedUrls(id);
    }
  }

  // ---------------------------------------------------------------------------
  // Title lookup and search (getMovieByTitle, searchMovies)

  /** `getMovieByTitle`: the normalised record of a "True" response, `None` for
      any other response; a failed request rejects the call. */
  function GetMovieByTitle(title: string, fetch: Fetch, encode: Encoder): (r: Result<Option<Movie>, ApiError>)
    ensures fetch(ByTitleUrl(title, encode)).Err? <==> r.Err?
    ensures r.Err? ==> r.error == FetchFailed(fetch(ByTitleUrl(title, encode)).error)
    ensures r.Ok? && r.value.Some? ==> fetch(ByTitleUrl(title, encode)).value.response == Some("True")
    ensures var outcome := fetch(ByTitleUrl(title, encode));
            outcome.Ok? && outcome.value.response == Some("True") ==> r == Ok(TransformMovieData(Some(outcome.value)))
    ensures var outcome := fetch(ByTitleUrl(title, encode));
            outcome.Ok? && outcome.value.response != Some("True") ==> r == Ok(None)
  {
    match fetch(ByTitleUrl(title, encode))
    case Err(f) => Err(FetchFailed(f))
    case Ok(data) => Ok(if data.response == Some("True") then TransformMovieData(Some(data)) else None)
  }

  /** The title lookup depends on the network only at the one URL it requests. */
  lemma GetMovieByTitleOnlyRequests(title: string, encode: Encoder, f: Fetch, g: Fetch)
    requires AgreeOn(f, g, {ByTitleUrl(title, encode)})
    ensures GetMovieByTitle(title, f, encode) == GetMovieByTitle(title, g, encode)
  {
    assert ByTitleUrl(title, encode) in {ByTitleUrl(title, encode)};
  }

  /** Each search record normalised, in order, with `None` for the dropped ones. */
  function TransformAll(items: seq<Option<RawRecord>>): (r: seq<Option<Movie>>)
    ensures |r| == |items|
    ensures forall i :: 0 <= i < |items| ==> r[i] == TransformMovieData(items[i])
  {
    seq(|items|, i requires 0 <= i < |items| => TransformMovieData(items[i]))
  }

  /** `searchMovies`: a "False" response is an empty page carrying the
      catalog's error text; any other response lists the records that
      normalise, in order; a failed request, or a response with no record
      list, rejects the call. */
  function SearchMovies(query: string, page: Option<int>, fetch: Fetch, encode: Encoder): (r: Result<SearchPage, ApiError>)
    ensures var outcome := fetch(SearchUrl(query, page.GetOr(DefaultPage), encode));
            && (outcome.Err? ==> r == Err(FetchFailed(outcome.error)))
            && (outcome.Ok? && outcome.value.response == Some("False") ==>
                  r == Ok(SearchPage([], Int(0), page.GetOr(DefaultPage), outcome.value.error)))
            && (outcome.Ok? && outcome.value.response != Some("False") ==>
                  (r.Err? <==> outcome.value.search.None?))
    ensures r.Err? ==> r.error.FetchFailed? || r.error.SearchListMissing?
    ensures r.Ok? ==> r.value.currentPage == page.GetOr(DefaultPage)
    ensures r.Ok? && r.value.error.Some? ==> |r.value.movies| == 0
  {
    var p := page.GetOr(DefaultPage);
    match fetch(SearchUrl(query, p, encode))
    case Err(f) => Err(FetchFailed(f))
    case Ok(data) =>
      if data.response == Some("False") then Ok(SearchPage([], Int(0), p, data.error))
      else
        match data.search
        // `data.Search.map(...)` throws when there is no list
        case None => Err(SearchListMissing)
        case Some(items) =>
          Ok(SearchPage(Somes(TransformAll(items)), ParseInt(TemplateText(data.totalResults)), p, None))
  }

  /** A listing response: as many movies as records that normalise, each
      the normalisation of one of the records, and the total as the catalog
      reports it; an empty record list gives an empty page. */
  lemma SearchListsNormalised(query: string, page: Option<int>, fetch: Fetch, encode: Encoder)
    requires var outcome := fetch(SearchUrl(query, page.GetOr(DefaultPage), encode));
             outcome.Ok? && outcome.value.response != Some("False") && outcome.value.search.Some?
    ensures var data := fetch(SearchUrl(query, page.GetOr(DefaultPage), encode)).value;
            var items := data.search.value;
            var r := SearchMovies(query, page, fetch, encode);
            && r.Ok? && r.value.error.None?
            && r.value.totalResults == ParseInt(TemplateText(data.totalResults))
            && |r.value.movies| == CountSome(TransformAll(items)) <= |items|
            && (forall k :: 0 <= k < |r.value.movies| ==> exists j :: 0 <= j < |items| && TransformMovieData(items[j]) == Some(r.value.movies[k]))
  {
    var data := fetch(SearchUrl(query, page.GetOr(DefaultPage), encode)).value;
    var items := data.search.value;
    assert SearchMovies(query, page, fetch, encode)
        == Ok(SearchPage(Somes(TransformAll(items)), ParseInt(TemplateText(data.totalResults)), page.GetOr(DefaultPage), None));
    NormalisedRecords(items);
  }

  /** A record of a listing response that normalises is on the page, after
      the normalisable records before it; so a dropped record removes only itself. */
  lemma SearchKeepsRecord(query: string, page: Option<int>, fetch: Fetch, encode: Encoder, i: nat)
    requires var outcome := fetch(SearchUrl(query, page.GetOr(DefaultPage), encode));
             outcome.Ok? && outcome.value.response != Some("False") && outcome.value.search.Some?
    requires i < |fetch(SearchUrl(query, page.GetOr(DefaultPage), encode)).value.search.value|
    ensures var items := fetch(SearchUrl(query, page.GetOr(DefaultPage), encode)).value.search.value;
            var r := SearchMovies(query, page, fetch, encode);
            TransformMovieData(items[i]).Some? ==>
              var at := CountSome(TransformAll(items)[..i]);
              r.Ok? && at < |r.value.movies| && r.value.movies[at] == TransformMovieData(items[i]).value
  {
    var data := fetch(SearchUrl(query, page.GetOr(DefaultPage), encode)).value;
    var items := data.search.value;
    assert SearchMovies(query, page, fetch, encode)
        == Ok(SearchPage(Somes(TransformAll(items)), ParseInt(TemplateText(data.totalResults)), page.GetOr(DefaultPage), None));
    NormalisedRecordAt(items, i);
  }

  /** The records of a listing that normalise, in order: as many as there
      are normalisable records, and none invented. */
  lemma NormalisedRecords(items: seq<Option<RawRecord>>)
    ensures var movies := Somes(TransformAll(items));
            && |movies| == CountSome(TransformAll(items)) <= |items|
            && (forall k :: 0 <= k < |movies| ==> exists j :: 0 <= j < |items| && TransformMovieData(items[j]) == Some(movies[k]))
  {
    var all := TransformAll(items);
    var movies := Somes(all);
    forall k | 0 <= k < |movies| ensures exists j :: 0 <= j < |items| && TransformMovieData(items[j]) == Some(movies[k]) {
      var j :| 0 <= j < |all| && all[j] == Some(movies[k]);
      assert TransformMovieData(items[j]) == Some(movies[k]);
    }
  }

  /** Each record that normalises is kept, at its place among the kept ones. */
  lemma NormalisedRecordAt(items: seq<Option<RawRecord>>, i: nat)
    requires i < |items|
    ensures var movies := Somes(TransformAll(items));
            TransformMovieData(items[i]).Some? ==>
              var at := CountSome(TransformAll(items)[..i]);
              at < |movies| && movies[at] == TransformMovieData(items[i]).value
  {
    var all := TransformAll(items);
    if all[i].Some? {
      SomesAt(all, i);
    }
  }

  // ---------------------------------------------------------------------------
  // Category listing (getMoviesByCategory with ALL_MOVIES)

  datatype Category = Popular | Trending | Upcoming

  /** The fixed, hand-curated identifiers of each category. */
  function CategoryIds(c: Category): (ids: seq<string>)
    ensures |ids| == 20
  {
    match c
    case Popular => [
      "tt0111161", "tt0068646", "tt0468569", "tt0167260", "tt0120737",
      "tt0109830", "tt0133093", "tt0110912", "tt0102926", "tt0076759",
      "tt0047478", "tt0114369", "tt0038650", "tt0118799", "tt0082971",
      "tt0120815", "tt0120586", "tt0054215", "tt0047396", "tt1375666"]
    case Trending => [
      "tt1517268", "tt15398776", "tt9362722", "tt2906216", "tt10366206",
      "tt6791350", "tt15239678", "tt9603212", "tt6718170", "tt10545296",
      "tt9114286", "tt1630029", "tt1745960", "tt7286456", "tt4633694",
      "tt9419884", "tt6443346", "tt1877830", "tt14209916", "tt10648342"]
    case Upcoming => [
      "tt6166392", "tt5090568", "tt14362112", "tt21807222", "tt12261776",
      "tt2567856", "tt10160976", "tt9663764", "tt4682266", "tt2906954",
      "tt6495056", "tt15671028", "tt9362930", "tt21454134", "tt15239678",
      "tt11304742", "tt11389872", "tt11304744", "tt11304746", "tt14998742"]
  }

  /** Every configured identifier passes the guard unchanged, and has the
      shape IMDb issues: seven digits, or eight without a leading zero. */
  lemma CategoryIdsWellFormed(c: Category, i: nat)
    requires i < |CategoryIds(c)|
    ensures NormalizeId(CategoryIds(c)[i]) == CategoryIds(c)[i]
    ensures IsImdbId(CategoryIds(c)[i])
    ensures |CategoryIds(c)[i]| == 9 || CategoryIds(c)[i][2] != '0'
  {
    match c
    case Popular => PopularIdsWellFormed(i);
    case Trending => TrendingIdsWellFormed(i);
    case Upcoming => UpcomingIdsWellFormed(i);
  }

  // Each list is checked in two halves only to keep each proof small for the
  // solver; the halves state nothing the whole does not.
  lemma PopularIdsWellFormed(i: nat)
    requires i < |CategoryIds(Popular)|
    ensures IsImdbId(CategoryIds(Popular)[i])
    ensures |CategoryIds(Popular)[i]| == 9 || CategoryIds(Popular)[i][2] != '0'
  {
    if i < 10 {
      PopularIdsWellFormedLow(i);
    } else {
      PopularIdsWellFormedHigh(i);
    }
  }

  lemma PopularIdsWellFormedLow(i: nat)
    requires i < 10
    ensures IsImdbId(CategoryIds(Popular)[i])
    ensures |CategoryIds(Popular)[i]| == 9 || CategoryIds(Popular)[i][2] != '0'
  {
  }

  lemma PopularIdsWellFormedHigh(i: nat)
    requires 10 <= i < 20
    ensures IsImdbId(CategoryIds(Popular)[i])
    ensures |CategoryIds(Popular)[i]| == 9 || CategoryIds(Popular)[i][2] != '0'
  {
  }

  lemma TrendingIdsWellFormed(i: nat)
    requires i < |CategoryIds(Trending)|
    ensures IsImdbId(CategoryIds(Trending)[i])
    ensures |CategoryIds(Trending)[i]| == 9 || CategoryIds(Trending)[i][2] != '0'
  {
    if i < 10 {
      TrendingIdsWellFormedLow(i);
    } else {
      TrendingIdsWellFormedHigh(i);
    }
  }

  lemma TrendingIdsWellFormedLow(i: nat)
    requires i < 10
    ensures IsImdbId(CategoryIds(Trending)[i])
    ensures |CategoryIds(Trending)[i]| == 9 || CategoryIds(Trending)[i][2] != '0'
  {
  }

  lemma TrendingIdsWellFormedHigh(i: nat)
    requires 10 <= i < 20
    ensures IsImdbId(CategoryIds(Trending)[i])
    ensures |CategoryIds(Trending)[i]| == 9 || CategoryIds(Trending)[i][2] != '0'
  {
  }

  lemma UpcomingIdsWellFormed(i: nat)
    requires i < |CategoryIds(Upcoming)|
    ensures IsImdbId(CategoryIds(Upcoming)[i])
    ensures |CategoryIds(Upcoming)[i]| == 9 || CategoryIds(Upcoming)[i][2] != '0'
  {
    if i < 10 {
      UpcomingIdsWellFormedLow(i);
    } else {
      UpcomingIdsWellFormedHigh(i);
    }
  }

  lemma UpcomingIdsWellFormedLow(i: nat)
    requires i < 10
    ensures IsImdbId(CategoryIds(Upcoming)[i])
    ensures |CategoryIds(Upcoming)[i]| == 9 || CategoryIds(Upcoming)[i][2] != '0'
  {
  }

  lemma UpcomingIdsWellFormedHigh(i: nat)
    requires 10 <= i < 20
    ensures IsImdbId(CategoryIds(Upcoming)[i])
    ensures |CategoryIds(Upcoming)[i]| == 9 || CategoryIds(Upcoming)[i][2] != '0'
  {
  }

  /** The end index of `slice(0, end)` on a list of length `len`: a negative
      end counts from the back. */
  function SliceEnd(len: nat, end: int): (k: nat)
    ensures k <= len
    ensures end >= 0 ==> k == if end < len then end else len
    ensures end < 0 ==> k == if len + end > 0 then len + end else 0
  {
    if end < 0 then (if len + end > 0 then len + end else 0)
    else if end < len then end else len
  }

  /** The identifiers a listing of `c` looks up: `ALL_MOVIES[c].slice(0, limit)`. */
  function CategoryPrefix(c: Category, limit: Option<int>): (ids: seq<string>)
    ensures |ids| <= |CategoryIds(c)| && ids == CategoryIds(c)[..|ids|]
  {
    CategoryIds(c)[..SliceEnd(|CategoryIds(c)|, limit.GetOr(DefaultCategoryLimit))]
  }

  /** Each identifier looked up, in order. */
  function LookupAll(ids: seq<string>, fetch: Fetch): (r: seq<Option<Movie>>)
    ensures |r| == |ids|
    ensures forall i :: 0 <= i < |ids| ==> r[i] == GetMovieById(ids[i], fetch)
  {
    seq(|ids|, i requires 0 <= i < |ids| => GetMovieById(ids[i], fetch))
  }

  /** `getMoviesByCategory`: the movies of the first `limit` identifiers of
      the category (5 when no limit is given) whose lookups succeed, in list
      order. */
  function GetMoviesByCategory(c: Category, limit: Option<int>, fetch: Fetch): (r: seq<Movie>)
    ensures |r| <= |CategoryPrefix(c, limit)| <= |CategoryIds(c)|
    ensures limit.GetOr(DefaultCategoryLimit) >= 0 ==> |r| <= limit.GetOr(DefaultCategoryLimit)
    ensures forall k :: 0 <= k < |r| ==> exists i :: 0 <= i < |CategoryPrefix(c, limit)| && GetMovieById(CategoryPrefix(c, limit)[i], fetch) == Some(r[k])
    ensures |r| == CountSome(LookupAll(CategoryPrefix(c, limit), fetch))
  {
    LookupSuccesses(CategoryPrefix(c, limit), fetch)
  }

  /** The movies of the lookups that succeed, in the order of `ids`: each
      comes from a successful lookup of one of `ids`. */
  function LookupSuccesses(ids: seq<string>, fetch: Fetch): (r: seq<Movie>)
    ensures |r| == CountSome(LookupAll(ids, fetch)) <= |ids|
    ensures forall k :: 0 <= k < |r| ==> exists i :: 0 <= i < |ids| && GetMovieById(ids[i], fetch) == Some(r[k])
  {
    var all := LookupAll(ids, fetch);
    var r := Somes(all);
    assert forall k :: 0 <= k < |r| ==> exists i :: 0 <= i < |all| && all[i] == Some(r[k]);
    r
  }

  /** A non-negative limit takes the first `limit` identifiers, or all of them. */
  lemma CategoryPrefixIsLimit(c: Category, limit: int)
    requires limit >= 0
    ensures CategoryPrefix(c, Some(limit)) == CategoryIds(c)[..if limit < 20 then limit else 20]
    ensures CategoryPrefix(c, None) == CategoryIds(c)[..5]
  {
  }

  /** A successful lookup is never lost: it appears in the listing after the
      successes that precede it, however many other lookups fail. */
  lemma CategoryKeepsSuccess(c: Category, limit: Option<int>, fetch: Fetch, i: nat)
    requires i < |CategoryPrefix(c, limit)|
    requires GetMovieById(CategoryPrefix(c, limit)[i], fetch).Some?
    ensures var at := CountSome(LookupAll(CategoryPrefix(c, limit), fetch)[..i]);
            at < |GetMoviesByCategory(c, limit, fetch)|
            && GetMoviesByCategory(c, limit, fetch)[at] == GetMovieById(CategoryPrefix(c, limit)[i], fetch).value
  {
    SomesAt(LookupAll(CategoryPrefix(c, limit), fetch), i);
  }

  /** Successes keep the relative order of the configured list. */
  lemma CategoryKeepsOrder(c: Category, limit: Option<int>, fetch: Fetch, i: nat, j: nat)
    requires i < j < |CategoryPrefix(c, limit)|
    requires GetMovieById(CategoryPrefix(c, limit)[i], fetch).Some?
    requires GetMovieById(CategoryPrefix(c, limit)[j], fetch).Some?
    ensures var all := LookupAll(CategoryPrefix(c, limit), fetch);
            var r := GetMoviesByCategory(c, limit, fetch);
            CountSome(all[..i]) < CountSome(all[..j]) < |r|
            && r[CountSome(all[..i])] == GetMovieById(CategoryPrefix(c, limit)[i], fetch).value
            && r[CountSome(all[..j])] == GetMovieById(CategoryPrefix(c, limit)[j], fetch).value
  {
    SomesOrder(LookupAll(CategoryPrefix(c, limit), fetch), i, j);
  }

  /** The URLs a listing requests: one per identifier of the prefix. */
  function CategoryUrls(c: Category, limit: Option<int>): set<string> {
    set i | 0 <= i < |CategoryPrefix(c, limit)| :: ByIdUrl(CategoryPrefix(c, limit)[i])
  }

  /** The listing depends on the network only at the URLs of its prefix. */
  lemma CategoryOnlyRequestsPrefix(c: Category, limit: Option<int>, f: Fetch, g: Fetch)
    requires AgreeOn(f, g, CategoryUrls(c, limit))
    ensures GetMoviesByCategory(c, limit, f) == GetMoviesByCategory(c, limit, g)
  {
    var ids := CategoryPrefix(c, limit);
    forall i | 0 <= i < |ids| ensures GetMovieById(ids[i], f) == GetMovieById(ids[i], g) {
      CategoryIdsWellFormed(c, i);
      assert ByIdUrl(ids[i]) in CategoryUrls(c, limit);
      GetMovieByIdOnlyRequests(ids[i], f, g);
    }
    assert LookupAll(ids, f) == LookupAll(ids, g);
  }

  /** The default trending listing looks up exactly the first five trending
      identifiers, each of which the guard lets through to the network. */
  lemma TrendingDefault(fetch: Fetch)
    ensures CategoryPrefix(Trending, None) == ["tt1517268", "tt15398776", "tt9362722", "tt2906216", "tt10366206"]
    ensures forall i :: 0 <= i < 5 ==> RequestedUrls(CategoryPrefix(Trending, None)[i]) == {ByIdUrl(CategoryPrefix(Trending, None)[i])}
    ensures |GetMoviesByCategory(Trending, None, fetch)| <= 5
  {
    forall i | 0 <= i < 5 ensures RequestedUrls(CategoryPrefix(Trending, None)[i]) == {ByIdUrl(CategoryPrefix(Trending, None)[i])} {
      CategoryIdsWellFormed(Trending, i);
    }
  }

  // ---------------------------------------------------------------------------
  // Opening the details of a listed movie (app/Movie/[id].tsx)

  /** The identifier the details screen looks up for a listed movie, as the
      app builds it from the route `/Movie/${movie.id}`: "tt" followed by the
      decimal text of the numeric id. */
  function DetailsRouteIdAsWritten(id: nat): (r: string)
    ensures StartsWith(r, "tt") && |r| >= 3 && AllDigits(r[2..])
    ensures NumeralValue(r[2..], Decimal) == id && (r[2] != '0' || id == 0)
  {
    var r := "tt" + NatText(id);
    assert r[2..] == NatText(id);
    r
  }

  /** As written, a movie whose identifier is seven digits with a leading
      zero cannot be opened: the zero is lost in the numeric id, the details
      screen asks for an identifier of six digits or fewer, and the guard
      rejects it without a request. */
  lemma AsWrittenRouteDropsLeadingZero(rec: RawRecord, d: string, fetch: Fetch)
    requires rec.imdbId == Some("tt" + d) && AllDigits(d) && |d| == 7 && d[0] == '0'
    ensures TransformMovieData(Some(rec)).Some?
    ensures var route := DetailsRouteIdAsWritten(TransformMovieData(Some(rec)).value.id);
            route != "tt" + d && !IsImdbId(NormalizeId(route)) && GetMovieDetails(route, fetch) == None
  {
    TransformPrefixedId(rec, d);
    var id := TransformMovieData(Some(rec)).value.id;
    ShortRoute(id, d);
  }

  /** The decimal text of the value of 7 digits with a leading zero has at
      most 6 digits, so `tt${id}` is another identifier, rejected unchanged. */
  lemma ShortRoute(id: nat, d: string)
    requires AllDigits(d) && |d| == 7 && d[0] == '0' && id == NumeralValue(d, Decimal)
    ensures var route := DetailsRouteIdAsWritten(id);
            route != "tt" + d && !IsImdbId(route) && NormalizeId(route) == route
  {
    PadNatText(d);
    var digits := NatText(id);
    assert |digits| < 7;
    var route := "tt" + digits;
    assert route[..2] == "tt";
  }

  /** The first popular movie, "tt0111161", lists as 111161
      (`TransformShawshankId`), and its details screen then asks for
      "tt111161", which `AsWrittenRouteDropsLeadingZero` shows the guard rejects. */
  lemma AsWrittenRouteOfShawshank(id: nat)
    requires id == 111161
    ensures DetailsRouteIdAsWritten(id) == "tt111161"
  {
    TextOf111161(id);
  }

  lemma TextOf111161(n: nat)
    requires n == 111161
    ensures NatText(n) == "111161"
  {
    Digits111161();
    CanonicalNatText("111161");
  }

  /** All popular identifiers but the last are seven digits with a leading
      zero, so as written none of those movies can be opened from a listing. */
  lemma AsWrittenPopularUnopenable(i: nat, rec: RawRecord, fetch: Fetch)
    requires i < 19 && rec.imdbId == Some(CategoryIds(Popular)[i])
    ensures TransformMovieData(Some(rec)).Some?
    ensures GetMovieDetails(DetailsRouteIdAsWritten(TransformMovieData(Some(rec)).value.id), fetch) == None
  {
    var id := CategoryIds(Popular)[i];
    var d := id[2..];
    PopularIdsWellFormed(i);
    assert id[2] == '0';
    assert id == "tt" + d;
    AsWrittenRouteDropsLeadingZero(rec, d, fetch);
  }

  /** The identifier with the digits of the numeric id padded back to seven,
      the width of IMDb identifiers: `tt${String(id).padStart(7, '0')}`. */
  function DetailsRouteId(id: nat): (r: string)
    ensures StartsWith(r, "tt") && |r| >= 9 && AllDigits(r[2..])
    ensures NumeralValue(r[2..], Decimal) == id
  {
    var digits := NatText(id);
    var r := "tt" + PadZeros(digits, 7);
    assert r[2..] == PadZeros(digits, 7);
    if |digits| < 7 then
      ZerosValue(7 - |digits|, digits);
      r
    else
      r
  }

  /** Seven digits, or eight without a leading zero, come back from their value. */
  lemma DetailsRouteOfDigits(id: nat, d: string)
    requires AllDigits(d) && (|d| == 7 || (|d| == 8 && d[0] != '0'))
    requires id == NumeralValue(d, Decimal)
    ensures DetailsRouteId(id) == "tt" + d
  {
    if |d| == 7 {
      PadNatText(d);
    } else {
      CanonicalNatText(d);
    }
  }

  /** A record whose identifier has the shape IMDb issues (seven digits, or
      eight without a leading zero) is opened under its own identifier: the
      details screen passes the guard and requests the URL of that identifier. */
  lemma DetailsRouteRoundTrip(rec: RawRecord, d: string)
    requires rec.imdbId == Some("tt" + d) && AllDigits(d)
    requires |d| == 7 || (|d| == 8 && d[0] != '0')
    ensures TransformMovieData(Some(rec)).Some?
    ensures var route := DetailsRouteId(TransformMovieData(Some(rec)).value.id);
            route == "tt" + d && IsImdbId(NormalizeId(route)) && RequestedUrls(route) == {ByIdUrl("tt" + d)}
  {
    TransformPrefixedId(rec, d);
    var id := TransformMovieData(Some(rec)).value.id;
    DetailsRouteOfDigits(id, d);
    var route := "tt" + d;
    ImdbIdForm(d);
    assert StartsWith(route, "tt");
    assert NormalizeId(route) == route;
  }

  /** With the padded route, every configured movie kept by the listing opens
      under the identifier it was listed with. */
  lemma CategoryMoviesOpen(c: Category, i: nat, rec: RawRecord)
    requires i < |CategoryIds(c)| && rec.imdbId == Some(CategoryIds(c)[i])
    ensures TransformMovieData(Some(rec)).Some?
    ensures DetailsRouteId(TransformMovieData(Some(rec)).value.id) == CategoryIds(c)[i]
  {
    var id := CategoryIds(c)[i];
    CategoryIdsWellFormed(c, i);
    var d := id[2..];
    assert id == "tt" + d;
    DetailsRouteRoundTrip(rec, d);
  }
}
