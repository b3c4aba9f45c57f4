# Movie gateway of RN_Movies_APP, in Dafny

The app's screens get every movie from one gateway module, `services/movieApi.ts`. It talks to the OMDb catalog: it builds request URLs and guards IMDb identifiers (`tt` plus 7 or 8 digits). It also turns the catalog's JSON records into the app's two shapes: `Movie` for the list screens and `MovieDetails` for the details screen. On top of that it offers:

- lookups by title and by identifier;
- a paged search;
- three fixed, hand-picked category lists (popular, trending, upcoming), each resolved through one lookup per identifier.

This project models that gateway as pure Dafny datatypes, functions and lemmas, in three modules:

- `Wrappers`: `Option` and `Result`. `Somes` models `filter(Boolean)` over lists of records or `null`, with lemmas showing it keeps every present entry in order.
- `JsText`: the JavaScript built-ins the gateway depends on, following ECMAScript semantics:
  - `replace('tt', '')` removes the first occurrence, wherever it is.
  - `split(', ')`.
  - `parseInt` with no radix: leading white space, sign, the `0x` prefix and NaN.
  - `match(/\d+/)` and `replace(/,/g, '')`.
  - `${n}` for integers, and `padStart`, which only the corrected route of the finding below uses.
- `MovieApi`: the gateway itself.

The network is a parameter, `Fetch = string -> Result<RawRecord, FetchFailure>`: it maps each request URL to the decoded JSON record or to the way the request failed. "A malformed identifier is never looked up" is stated as follows: `RequestedUrls(id)` is empty, and the result is the same under any two networks that agree on the URLs in `RequestedUrls(id)`. `encodeURIComponent` is a parameter too, `Encoder = string -> string`.

Where the gateway's comments or its stated intent differ from the code, the model follows the code:

- The details `title` and `original_title` are `Title` with no default. A missing title stays absent (`undefined`).
- The details `overview` is `Plot || null`, not `Plot || ''`.
- The details `release_date` is the template literal `${Year}-01-01`, so a missing year gives `"undefined-01-01"` (a `null` one gives `"null-01-01"`, which the model does not tell apart), not a YYYY-MM-DD date.
- The details `id` is `parseInt` of the identifier without its first "tt", with no digit check, so it can be NaN (`JsInt.NaN`). A response with no `imdbID` makes `replace` throw. The catch turns that into `null`.
- The list normalisation removes the first "tt" anywhere in the identifier, not only a leading one: "12tt34" gives 1234.
- A poster is absent when `Poster` is missing, empty (falsy) or `"N/A"`.
- An empty `Genre` text gives `genre_ids = []` in the list form, because `''` is falsy. It gives one genre with an empty name in the details form, because `''.split(', ')` is `['']`.
- `searchMovies` and `getMovieByTitle` let a failed request reject the call. `getMovieById` and `getMovieDetails` swallow it and return `null`.
- A search response that is not `"False"` but has no `Search` list makes `data.Search.map` throw (`ApiError.SearchListMissing`).
- `getMoviesByCategory` uses JavaScript `slice(0, limit)`, so a negative limit counts from the end of the list.

## Model

| member | source | states |
|---|---|---|
| Wrappers.Somes | services/movieApi.ts:259 | `filter(Boolean)` keeps as many entries as are present, never more than it is given, and each one kept is a present entry of the input |
| Wrappers.CountSomeStep | services/movieApi.ts:259 | the count of present entries grows by one exactly at a present entry |
| Wrappers.SomesAt | services/movieApi.ts:272 | every present entry is kept, at the position given by the number of present entries before it |
| Wrappers.SomesOrder | services/movieApi.ts:272 | two present entries keep their relative order |
| Wrappers.CountSomeMonotone | services/movieApi.ts:272 | a longer prefix never has fewer present entries |
| Wrappers.SomesNonEmpty | services/movieApi.ts:272 | one present entry is enough for a non-empty result, so one failed lookup never empties the list |
| JsText.LeadingZero | services/movieApi.ts:73 | leading zeros do not change a numeral's value ("0111161" is 111161) |
| JsText.NatText | services/movieApi.ts:17 | the decimal text of a natural number is digits, denotes that number, and has no leading zero |
| JsText.IntText | services/movieApi.ts:17 | the decimal text of an integer starts with '-' exactly when the integer is negative |
| JsText.NumeralLowerBound | services/movieApi.ts:73 | a numeral without a leading zero is at least 10 to the power of its length minus one |
| JsText.CanonicalNatText | services/movieApi.ts:73 | a numeral without superfluous leading zeros is the decimal text of its value |
| JsText.PadZeros | services/movieApi.ts:73 | for the corrected route of the details screen, `padStart(n, '0')` gives the longer of `n` and the string's length, ends with the string, and everything before it is '0' |
| JsText.ZerosValue | services/movieApi.ts:73 | zeros put in front of a numeral keep it a numeral with the same value |
| JsText.PadNatText | services/movieApi.ts:73 | padding the decimal text of a numeral's value back to the numeral's length restores the numeral, zeros included |
| JsText.TrimStart | services/movieApi.ts:73 | what `parseInt` skips is exactly the leading white space, and the rest starts with something else |
| JsText.ParseInt | services/movieApi.ts:73 | `parseInt` of blank text is NaN; after the leading white space, a first character that is neither a digit nor a sign gives NaN; a negative result needs a leading '-' |
| JsText.ParseMagnitude | services/movieApi.ts:73 | the unsigned part is NaN when it does not start with a digit, never negative; after "0x" it is NaN exactly when no hexadecimal digit follows; without "0x" a leading digit always gives a number |
| JsText.DigitPrefixLength | services/movieApi.ts:73 | the longest prefix of `radix` digits: digits up to the bound, and a non-digit or the end right after it |
| JsText.LeadingNumeral | services/movieApi.ts:73 | `parseInt` of an unsigned body is NaN exactly when it does not start with a digit, and never negative otherwise |
| JsText.ParseIntOfDigits | services/movieApi.ts:73 | `parseInt` of a digit run, followed by anything that does not continue it, is the run's decimal value |
| JsText.ParseMagnitudeOfDigits | services/movieApi.ts:73 | the unsigned part of `parseInt` reads a digit run as its decimal value, a leading "0" included |
| JsText.DigitRunLength | services/movieApi.ts:202 | a digit run followed by a non-digit is exactly the longest digit prefix |
| JsText.ParseIntText | services/movieApi.ts:17 | `parseInt` reads back the decimal text of every integer, as the `page` written into a search URL |
| JsText.IndexOf | services/movieApi.ts:69 | the search for the first "tt" finds the leftmost occurrence, or reports none when there is none |
| JsText.IndexOfIs | services/movieApi.ts:69 | an occurrence with no earlier pattern start before it is the one `indexOf` finds |
| JsText.IndexOfNone | services/movieApi.ts:69 | a string without the pattern's first character has no occurrence |
| JsText.RemoveFirst | services/movieApi.ts:69 | `replace('tt', '')` leaves the text unchanged exactly when "tt" does not occur, and otherwise makes it two characters shorter |
| JsText.RemoveFirstPutsBack | services/movieApi.ts:69 | a changed text is the result with "tt" put back at the leftmost occurrence |
| JsText.RemoveFirstOfPrefixed | services/movieApi.ts:69 | `replace('tt', '')` on an identifier that starts with "tt" removes exactly that prefix |
| JsText.RemoveFirstAbsent | services/movieApi.ts:69 | an identifier without "tt" is left unchanged |
| JsText.RemoveFirstLength | services/movieApi.ts:69 | a removal takes out exactly the pattern's length |
| JsText.DigitsHaveNoTt | services/movieApi.ts:69 | a digit string contains no "tt" |
| JsText.Split | services/movieApi.ts:80 | `split` with a separator always gives at least one piece |
| JsText.SplitAt | services/movieApi.ts:223 | at the leftmost separator a split yields the text before it, then splits the rest |
| JsText.JoinSplit | services/movieApi.ts:223 | joining the pieces of a split with its separator gives the original text back |
| JsText.SplitJoin | services/movieApi.ts:223 | splitting pieces joined by the separator gives the pieces back, when none contains the separator's first character |
| JsText.SplitPiecesAvoidSeparator | services/movieApi.ts:223 | no piece of a split contains the separator |
| JsText.SplitWithout | services/movieApi.ts:80 | a text without the separator is a single piece |
| JsText.RemoveAll | services/movieApi.ts:220 | `replace(/,/g, '')` leaves no comma, never lengthens, and leaves a comma-free text unchanged |
| JsText.RemoveAllKeeps | services/movieApi.ts:220 | every character other than the comma is kept, as often as it occurred |
| JsText.RemoveAllAppend | services/movieApi.ts:220 | removing the commas of two texts joined is removing them from each and joining, so the order of what is kept is the order of the text |
| JsText.RemoveAllOne | services/movieApi.ts:220 | a single character is removed exactly when it is a comma |
| JsText.FirstDigitRun | services/movieApi.ts:201 | `match(/\d+/)` finds nothing exactly when there is no digit; otherwise a non-empty digit run with no digit before it and none right after |
| MovieApi.TimeoutIsDistinct | services/movieApi.ts:53-56 | a timeout is reported with a message no network error and no HTTP error produces |
| MovieApi.FailureMessageReadsBack | services/movieApi.ts:24 | a failed status is reported after its prefix with the response text; a failed transport after its prefix with its own message, or the connection hint when it has none (lines 54-56); a timeout with the timeout text |
| MovieApi.ByTitleUrl | services/movieApi.ts:15 | the by-title URL is the base with "/?t=", then exactly the encoded title, then the key |
| MovieApi.ByIdUrl | services/movieApi.ts:16 | the by-identifier URL is the base with "/?i=", then exactly the identifier, then the key |
| MovieApi.ByIdUrlRoundTrip | services/movieApi.ts:16 | the identifier can be read back from its URL |
| MovieApi.ByIdUrlInjective | services/movieApi.ts:16 | different identifiers are requested at different URLs |
| MovieApi.SearchUrl | services/movieApi.ts:17 | the search URL is the base with "/?s=", the encoded query, "&page=", the page's decimal text and the key, each at its place |
| MovieApi.SearchUrlCarriesPage | services/movieApi.ts:17 | the page number can be read back from a search URL |
| MovieApi.OrElse | services/movieApi.ts:74-75 | `v \|\| fallback` is the field when present and non-empty, the fallback otherwise |
| MovieApi.PosterUrl | services/movieApi.ts:66 | the poster is absent exactly when the field is missing, empty or "N/A", and is the field otherwise |
| MovieApi.Positions | services/movieApi.ts:80 | `map((_, i) => i)` lists 0 to n - 1 |
| MovieApi.GenreIds | services/movieApi.ts:80 | genre ids are the positions of the ", "-separated segments of a non-empty genre text, and none otherwise |
| MovieApi.TransformMovieData | services/movieApi.ts:61-81 | a record is kept exactly when it has a non-empty identifier that is a non-empty digit run once its first "tt" is removed; its id is the value `parseInt` reads from those digits; poster equals backdrop and follows the poster rule; title, overview, date and genre ids follow their defaults |
| MovieApi.TransformPrefixedId | services/movieApi.ts:69-73 | a "tt"-prefixed record is kept exactly when the rest is a non-empty digit run, and its id is that run's value |
| MovieApi.TransformBareId | services/movieApi.ts:69-73 | a bare digit identifier is kept, with its value as id |
| MovieApi.TransformShawshankId | services/movieApi.ts:69-73 | "tt0111161" gives the id 111161 |
| MovieApi.ShawshankDigits | services/movieApi.ts:70 | "0111161" is a digit run denoting 111161 |
| MovieApi.TransformNeedsId | services/movieApi.ts:63 | a missing record, or one with a missing or empty identifier, is dropped |
| MovieApi.TransformRejectsNonDigit | services/movieApi.ts:70 | a non-digit after the first "tt" drops the record |
| MovieApi.NormalizeId | services/movieApi.ts:164 | the normalised identifier starts with "tt"; one that already does is unchanged, any other gets "tt" added in front |
| MovieApi.ImdbIdForm | services/movieApi.ts:166 | `/^tt\d{7,8}$/` accepts "tt" followed by a text exactly when that text is 7 or 8 digits |
| MovieApi.GuardAccepts | services/movieApi.ts:164-169 | the guard passes exactly the identifiers that are well formed already, or are 7 or 8 bare digits |
| MovieApi.GetMovieById | services/movieApi.ts:162-179 | a malformed identifier gives null, and so does a failed request; a well-formed one with a successful "True" response gives that record normalised; a result comes only that way |
| MovieApi.GetMovieByIdOnlyRequests | services/movieApi.ts:164-172 | the lookup depends on the network only at the one URL the guard lets through, and on none for a malformed identifier |
| MovieApi.MalformedIdNeverFetched | services/movieApi.ts:185-190 | a malformed identifier requests nothing and gives null from both lookups |
| MovieApi.RuntimeMinutes | services/movieApi.ts:201-202 | the runtime is absent exactly when the text is missing, empty or has no digit; otherwise it is the value of the first digit run, never negative |
| MovieApi.RuntimeOf142Min | services/movieApi.ts:200-202 | "142 min" is 142 minutes |
| MovieApi.RuntimeOfLeadingDigits | services/movieApi.ts:201-202 | a runtime text that starts with digits is read as those digits |
| MovieApi.ReleaseDate | services/movieApi.ts:205 | the date ends in "-01-01" after the year text; a missing year (or a `null` one, which the model does not tell apart) gives "undefined-01-01" |
| MovieApi.VoteCount | services/movieApi.ts:220 | missing votes count 0; votes whose comma-free text is a digit run count its value; blank text counts 0 |
| MovieApi.VoteCountMissing | services/movieApi.ts:220 | missing votes count as 0 |
| MovieApi.VoteCountNotANumber | services/movieApi.ts:220 | votes starting, after commas and white space are dropped, with neither a digit nor a sign count as 0 |
| MovieApi.VoteCountNA | services/movieApi.ts:220 | "N/A" counts as 0 votes |
| MovieApi.VoteCountExample | services/movieApi.ts:220 | "2,345,678" counts 2345678 votes |
| MovieApi.ThreeGroupsJoined | services/movieApi.ts:220 | three digit groups separated by commas read as the groups joined in their order |
| MovieApi.VoteCountGrouped | services/movieApi.ts:220 | votes grouped with commas count as the value of their digits |
| MovieApi.Genres | services/movieApi.ts:223 | one genre per ", "-separated segment, numbered by position and named by that segment; none for a missing genre field |
| MovieApi.GenresRoundTrip | services/movieApi.ts:223 | the genre names joined with ", " give the genre text back, and no name contains the separator |
| MovieApi.GenresExample | services/movieApi.ts:223 | "Action, Drama, Sci-Fi" gives Action, Drama and Sci-Fi numbered 0, 1 and 2 |
| MovieApi.SplitGenreExample | services/movieApi.ts:223 | "Action, Drama, Sci-Fi" splits into its three names |
| MovieApi.DetailsOf | services/movieApi.ts:200-237 | every field: id is `parseInt` of the identifier without its first "tt"; title and original title are the title; overview is the plot, or none when it is empty; poster equals backdrop and follows the poster rule; rating, votes, date, runtime and genres follow their rules; adult holds exactly for R and NC-17; imdb_id is the identifier, or none when empty; language "en", status "Released", budget, popularity and revenue 0, no homepage, tagline or collection, empty company, country and language lists, and no video |
| MovieApi.GetMovieDetails | services/movieApi.ts:182-242 | a malformed identifier gives null, and so does a failed request; a well-formed one with a successful "True" response that has an identifier gives that record's details; details come only that way |
| MovieApi.DetailsAgreeWithMovie | services/movieApi.ts:66-80 | where the list form keeps a record, both forms agree on id, poster, backdrop, rating and genre numbering |
| MovieApi.GetMovieDetailsOnlyRequests | services/movieApi.ts:185-192 | the details depend on the network only at the URL the guard lets through |
| MovieApi.GetMovieByTitle | services/movieApi.ts:155-159 | a failed request rejects the call with that failure, and only then; a "True" response gives the record normalised, any other response null |
| MovieApi.GetMovieByTitleOnlyRequests | services/movieApi.ts:155-156 | the title lookup depends on the network only at the URL of the title |
| MovieApi.TransformAll | services/movieApi.ts:259 | `Search.map(transformMovieData)` normalises each record in its place |
| MovieApi.SearchMovies | services/movieApi.ts:245-264 | a failed request rejects with its failure; "False" gives an empty page with total 0, the page asked for and the catalog's error; otherwise the call rejects exactly when the list is missing; the page is always the one asked for (default 1) |
| MovieApi.SearchListsNormalised | services/movieApi.ts:258-263 | a listing page has no error, the total `parseInt` reads from the catalog's count, and as many movies as there are normalisable records, each one the normalisation of a record; an empty record list gives an empty page |
| MovieApi.SearchKeepsRecord | services/movieApi.ts:259 | each normalisable record of a listing is on the page, after the normalisable records before it |
| MovieApi.NormalisedRecords | services/movieApi.ts:259 | `map(transformMovieData).filter(Boolean)` gives as many movies as there are normalisable records, and invents none |
| MovieApi.NormalisedRecordAt | services/movieApi.ts:259 | each normalisable record is kept, at its place among the kept ones |
| MovieApi.CategoryIdsWellFormed | services/movieApi.ts:83-150 | every configured identifier passes the guard unchanged and is 7 digits, or 8 without a leading zero |
| MovieApi.PopularIdsWellFormed | services/movieApi.ts:84-105 | the popular identifiers are well formed |
| MovieApi.TrendingIdsWellFormed | services/movieApi.ts:106-127 | the trending identifiers are well formed |
| MovieApi.UpcomingIdsWellFormed | services/movieApi.ts:128-149 | the upcoming identifiers are well formed |
| MovieApi.CategoryIds | services/movieApi.ts:83-150 | every category lists 20 identifiers |
| MovieApi.SliceEnd | services/movieApi.ts:269 | `slice(0, end)` stops at `end` capped at the length, and a negative end counts from the back |
| MovieApi.CategoryPrefix | services/movieApi.ts:269 | a listing uses a prefix of its category's list |
| MovieApi.LookupAll | services/movieApi.ts:270 | each identifier of the prefix is looked up in its place |
| MovieApi.GetMoviesByCategory | services/movieApi.ts:267-277 | the listing has as many movies as the lookups of the prefix that succeed, so at most as many as the prefix and as a non-negative limit, and each comes from a successful lookup of an identifier of the prefix |
| MovieApi.LookupSuccesses | services/movieApi.ts:270-272 | exactly as many movies as lookups that succeed, never more than the identifiers, and each from a successful lookup of one of them |
| MovieApi.CategoryPrefixIsLimit | services/movieApi.ts:267-269 | a non-negative limit takes the first `limit` identifiers, or all 20; no limit takes the first 5 |
| MovieApi.CategoryKeepsSuccess | services/movieApi.ts:270-272 | a successful lookup always appears in the listing, after the successes before it, however many others fail |
| MovieApi.CategoryKeepsOrder | services/movieApi.ts:270-272 | successes keep the order of the configured list |
| MovieApi.CategoryOnlyRequestsPrefix | services/movieApi.ts:269-271 | the listing depends on the network only at the URLs of its prefix |
| MovieApi.TrendingDefault | services/movieApi.ts:285-287 | the default trending listing looks up exactly the first five trending identifiers, each sent to the network, and lists at most five movies |
| MovieApi.AsWrittenRouteDropsLeadingZero | services/movieApi.ts:73 | a 7-digit identifier with a leading zero, listed by its numeric id and opened as `tt${id}`, fails the guard and gives no details |
| MovieApi.DetailsRouteIdAsWritten | services/movieApi.ts:73 | the details screen's `tt${id}` (line 17 of app/Movie/[id].tsx) built from this id is "tt" and digits denoting the id, with no leading zero unless the id is 0 |
| MovieApi.AsWrittenRouteOfShawshank | services/movieApi.ts:73 | the numeric id 111161 of "tt0111161" is opened as "tt111161" |
| MovieApi.AsWrittenPopularUnopenable | services/movieApi.ts:85-103 | none of the first 19 popular movies can be opened from a listing as written |
| MovieApi.DetailsRouteRoundTrip | services/movieApi.ts:69-73 | with the id padded to 7 digits, any identifier of 7 digits, or 8 without a leading zero, comes back unchanged and is requested at its own URL |
| MovieApi.DetailsRouteId | services/movieApi.ts:73 | the padded route is "tt" and at least 7 digits denoting the id |
| MovieApi.DetailsRouteOfDigits | services/movieApi.ts:73 | the padded route of the value of 7 digits, or of 8 without a leading zero, is "tt" and those digits |
| MovieApi.CategoryMoviesOpen | services/movieApi.ts:83-150 | with the padded route, every configured movie opens under the identifier it was listed with |

## Findings

| source | as written | input that shows it | evidently intended | confidence | as-written member | corrected member |
|---|---|---|---|---|---|---|
| services/movieApi.ts:73 | `transformMovieData` keeps the identifier only as `parseInt` of its digits, which drops leading zeros. The details screen (app/Movie/[id].tsx:17) rebuilds the identifier as `tt${id}` and passes it to `getMovieDetails`, whose guard needs 7 or 8 digits | "tt0111161" lists as 111161 and is opened as "tt111161". The guard rejects it, the details are null and the screen spins forever. This affects 19 of the 20 popular movies | a listed movie opens under its own identifier, e.g. by rebuilding it as `tt${String(id).padStart(7, '0')}` | high (not executed) | MovieApi.AsWrittenRouteDropsLeadingZero | MovieApi.DetailsRouteRoundTrip |

`DetailsRouteIdAsWritten` models the route as written. `DetailsRouteId` models the padded one, and the catalog lemma `CategoryMoviesOpen` uses it. Only one line of `app/Movie/[id].tsx` is modelled here; the rest of that screen is not part of this model.

## Left out

- `fetchWithTimeout` and `handleResponse` (the timer, `AbortController`, HTTP status and JSON decoding) are I/O. They stay out, beyond the `FetchFailure` cases and the messages `FailureMessage` builds. The `TIMEOUT_DURATION` and `PAGE_SIZE` constants go with them; `PAGE_SIZE` is never used.
- The concurrency of `Promise.all` is not modelled. Each lookup catches its own errors, so the listing is a map followed by a filter.
- The catch in `getMoviesByCategory` is left out: nothing in its `try` can throw, so it is unreachable.
- `getPopular`, `getTrending` and `getUpcoming` have no separate members. Each is `GetMoviesByCategory` of its category, and an absent limit is `None` (`TrendingDefault` states the trending default).
- `parseFloat(imdbRating) || 0` is floating-point parsing. `Rating` keeps the text it would be read from.
- `encodeURIComponent` is the `Encoder` parameter and is not defined.
- `console.log` and `console.error` are left out.
- JSON values are string fields or absent. A JSON `null` and a missing field are both `None`. Non-string values (a number `Year`, say) are not modelled.
- Numbers are unbounded integers. The precision loss of `parseInt` beyond 2^53, and the exponent form of `${page}` for pages of 10^21 and more, are not modelled.
- `IsDigit` follows `\d` without the `u` flag (ASCII digits only). White space for `parseInt` is the ECMAScript set, matched by code point, with no Unicode normalisation.
- A non-integer or non-number `page`, and a `limit` that is not an integer, are not modelled: both are `int`.
- The React Native screens, components, layouts, bundler configuration and type declarations are rendering or configuration and are not part of this model. The one exception is the identifier rebuilt in app/Movie/[id].tsx, modelled for the finding above.
