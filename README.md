# realteeth weather dashboard — verified model of its core logic

This project models, in Dafny, the logic of the realteeth browser weather
dashboard that runs after a browser or network call has returned. It covers:

- **Favorites.** The favorites record, which is capped at six places keyed by
  an id made from the coordinates. This is `storage.ts`: the tolerant loader,
  the capped save and `makePlaceId`.
- **The favorites hook.** `use-favorites.ts` with `add`, `remove`, `rename`
  and `isFavorite`. It is a class over its `items` state, with a ghost log of
  every list written to storage.
- **The weather normaliser.** The checks in `getWeatherOpenMeteo` once the
  forecast response has arrived, and `toHourlyToday24`.
- **Search normalisation and autocomplete.** `normalize.ts`, and the memo body
  of `use-district-autocomplete.ts`: the query guard, the scoring loop, the
  sort by score and the cut to `limit`.
- **Reverse-geocode naming.** `compactJoin` and the name chosen from the
  address fields or from `display_name`.
- **Small state machines.**
  - The current-position status.
  - The per-favorite weather summaries (`weatherById`).
  - The search box handlers: typing, the keyboard highlight, hovering and
    `selectSuggestion`.
  - The hour label of `format.ts`.

The JavaScript built-ins the code relies on are modelled once, in shared modules:
- `JsText`: `trim`, `\s`, `toLowerCase`, `startsWith`, `indexOf`, `slice`, and
  the code-point order that stands in for `localeCompare`.
- `JsonValue`: parsed JSON values and property reads with optional chaining.
- `StableSort`: `Array.prototype.sort`, which ECMAScript requires to be
  stable, as an insertion sort over an order.

Loops that push into a list are methods. Each carries the invariant "the list
so far equals the specification function on the prefix". Their sorts and
cuts are proved sorted, a permutation, stable and a prefix.

Inputs from the outside world are parameters:
- the parsed JSON of a stored value or response body, as a `Json` or a
  `parse` function;
- the `ok` flag of a response;
- the clock reading `createdAt`;
- the date `today`;
- whether a storage write throws;
- the platform's geolocation support;
- the geocoder's answer.

Points of behaviour the model takes from the code as written:
- **Ranking.** Autocomplete ranks by the single weighted score
  `idx * 10 + label.length`, so a match further into a short label can
  rank above an earlier match in a long one.
- **Unsupported geolocation.** With a navigator but no geolocation, the status
  starts as `error` with the "unsupported" message, not as `idle`.
- **`remove`.** It returns no failure result. A storage write that throws
  escapes it; see "Left out".
- **Null JSON body.** A forecast or reverse-geocoding body of JSON `null`
  makes the code throw a TypeError when it reads a field. The model gives it
  its own error or rejection, distinct from `WEATHER_DATA_MISSING`.

## Model

| member | source | states |
|---|---|---|
| FavoritesStorage.ParseFixedText | src/features/favorites/model/storage.ts:16 | the `toFixed(5)` text of a number reads back to its sign and its value in units of 1e-5 |
| FavoritesStorage.ParsePlaceIdRoundTrip | src/features/favorites/model/storage.ts:14-17 | a place id splits at its comma and reads back to the rounded keys of both coordinates |
| FavoritesStorage.SamePlaceId | src/features/favorites/model/storage.ts:14-17 | two places get the same id exactly when both coordinates agree to five decimals with the same sign; in particular the id is a function of the coordinates |
| FavoritesStorage.DecodeEntry | src/features/favorites/model/storage.ts:28-39 | an entry is kept exactly when it is an object whose `id` and `placeName` are strings and whose `lat`, `lon` and `createdAt` are numbers, and the kept favorite carries exactly those values |
| FavoritesStorage.Load | src/features/favorites/model/storage.ts:19-24 | nothing stored, an empty string, text that does not parse, or a value that is not an array each load as the empty list |
| FavoritesStorage.LoadFavorites | src/features/favorites/model/storage.ts:19-44 | the loop keeps the well-typed entries in order (invariant), then sorts by `createdAt` and cuts; the result is the specified load and has at most six entries |
| FavoritesStorage.KeptExactly | src/features/favorites/model/storage.ts:26-40 | every kept favorite decodes from some entry, and every entry that decodes is kept: bad entries are dropped one by one |
| FavoritesStorage.LoadFromArray | src/features/favorites/model/storage.ts:26-43 | a stored array loads to at most six favorites, non-decreasing in `createdAt`, each decoded from a stored entry; equal `createdAt` keep their stored order; with no more than six well-typed entries all of them are loaded |
| FavoritesStorage.ByCreatedAtIsTotalPreorder | src/features/favorites/model/storage.ts:42 | the comparator `a.createdAt - b.createdAt` is a consistent (total, transitive) order |
| FavoritesStorage.Saved | src/features/favorites/model/storage.ts:48 | the saved list is the first min(6, n) items, in order |
| FavoritesStorage.EncodeEntry | src/features/favorites/model/storage.ts:49 | the stored form of a favorite decodes back to that favorite |
| FavoritesStorage.KeptEncoded | src/features/favorites/model/storage.ts:26-40 | the loader's loop keeps every entry of a written list, unchanged and in order |
| FavoritesStorage.SaveLoadRoundTrip | src/features/favorites/model/storage.ts:42-49 | saving a list ordered by `createdAt` and loading what was written gives back its first six items unchanged |
| FavoritesStore.Without | src/features/favorites/model/use-favorites.ts:68 | the filter keeps exactly the entries whose id differs, so the removed id is gone and the other ids remain |
| FavoritesStore.WithoutAbsent | src/features/favorites/model/use-favorites.ts:66-73 | removing an id that is not listed leaves the list as it was |
| FavoritesStore.WithoutUnique | src/features/favorites/model/use-favorites.ts:68 | the filter keeps ids unique |
| FavoritesStore.AppendFreshUnique | src/features/favorites/model/use-favorites.ts:43-54 | appending an entry whose id is not listed keeps ids unique |
| FavoritesStore.Find | src/features/favorites/model/use-favorites.ts:80-81 | `find` fails exactly when the id is not listed; otherwise it returns a listed entry with that id |
| FavoritesStore.FindFirst | src/features/favorites/model/use-favorites.ts:80 | `find` returns the first entry with that id |
| FavoritesStore.RenamedKeepsIds | src/features/favorites/model/use-favorites.ts:83 | renaming keeps the set of ids and their uniqueness |
| FavoritesStore.Favorites.constructor | src/features/favorites/model/use-favorites.ts:15 | the hook starts with whatever the loader reads, within the limit, and has written nothing |
| FavoritesStore.Favorites.Save | src/features/favorites/model/storage.ts:46-49 | a write that does not throw records the first six items; one that throws records nothing |
| FavoritesStore.Favorites.IsFavorite | src/features/favorites/model/use-favorites.ts:27-35 | true exactly when the id of the coordinates is the id of a listed favorite |
| FavoritesStore.Favorites.Add | src/features/favorites/model/use-favorites.ts:37-64 | a blank name is `storage`, then a listed id is `duplicate`, then six items are `limit`, then a throwing write is `storage`; every failure changes nothing; a success appends exactly the new favorite (trimmed name, derived id, given coordinates and `createdAt`), writes the new list, and keeps the length within six and ids unique |
| FavoritesStore.Favorites.Remove | src/features/favorites/model/use-favorites.ts:66-73 | the list becomes the filtered list and is written; an absent id changes nothing; the limit and unique ids are kept |
| FavoritesStore.Favorites.Rename | src/features/favorites/model/use-favorites.ts:75-93 | a blank name is `empty`, an unknown id is `storage`, a throwing write is `storage`, and each failure changes nothing; a success changes only `placeName` on the entries with that id, writes the list, returns the found entry renamed, and keeps ids |
| OpenMeteo.ToHourlyToday24 | src/entities/weather/api/open-meteo.ts:28-47 | the indexed loop pushes exactly the candidate points (invariant); the result is the sorted candidates cut to 24 |
| OpenMeteo.ByTimeIsTotalPreorder | src/entities/weather/api/open-meteo.ts:43 | the time comparator is a consistent order |
| OpenMeteo.CandidatesExactly | src/entities/weather/api/open-meteo.ts:35-41 | every candidate comes from one index, and every index whose time is a string on `today` and whose temperature is a number gives one |
| OpenMeteo.HourlyTodayProperties | src/entities/weather/api/open-meteo.ts:35-46 | the hourly series has min(24, candidates) points, in time order, each on `today` and equal to the time and temperature at some index; when no more than 24 qualify, it is all of them |
| OpenMeteo.GetWeather | src/entities/weather/api/open-meteo.ts:67-104 | each error has exactly one cause, checked in order: not ok, body not JSON, null body, a missing or mistyped field, fewer than 24 points; a success carries the given name, the three temperatures read from the body, and exactly 24 of today's points in time order |
| SearchNormalize.StripSpaceDashChar | src/features/place-search/model/normalize.ts:2 | one character is deleted exactly when it is white space or `-`, and kept otherwise |
| SearchNormalize.StripSpaceDashAppend | src/features/place-search/model/normalize.ts:2 | the deletion distributes over concatenation; with the one-character case, the result is the input's other characters, all of them, in their order |
| SearchNormalize.NormalizeForSearch | src/features/place-search/model/normalize.ts:1-3 | the normalised text contains no white space and no `-` |
| SearchNormalize.NormalizeIdempotent | src/features/place-search/model/normalize.ts:1-3 | normalising twice is normalising once |
| SearchNormalize.LabelFromDistrictRaw | src/features/place-search/model/normalize.ts:5-7 | the label has the raw entry's length, each `-` becomes a space and nothing else changes, so it has no `-` |
| SearchNormalize.NormalizeLabel | src/features/place-search/model/normalize.ts:1-7 | a label normalises to the same text as its raw entry |
| DistrictAutocomplete.HitsComplete | src/features/place-search/model/use-district-autocomplete.ts:22-31 | every hit is a directory entry whose normalised label contains the query, with its label and its score `idx * 10 + label.length`; and every such matching entry yields its hit |
| DistrictAutocomplete.ToSuggestions | src/features/place-search/model/use-district-autocomplete.ts:34 | the `map` keeps length and order and drops only the score |
| DistrictAutocomplete.Suggest | src/features/place-search/model/use-district-autocomplete.ts:15-35 | a trimmed query shorter than 2, or one that normalises to empty, gives no suggestions; there are at most `limit` of them, 10 when omitted |
| DistrictAutocomplete.Autocomplete | src/features/place-search/model/use-district-autocomplete.ts:16-35 | the memo body (guard, loop with the invariant "hits so far", sort, cut, map) returns the specified suggestions |
| DistrictAutocomplete.ByScoreIsTotalPreorder | src/features/place-search/model/use-district-autocomplete.ts:33 | the score comparator is a consistent order |
| DistrictAutocomplete.RankedHits | src/features/place-search/model/use-district-autocomplete.ts:33 | the ranked hits are a permutation of the hits, in non-decreasing score order |
| DistrictAutocomplete.KeptHits | src/features/place-search/model/use-district-autocomplete.ts:29-34 | each of the first `n` ranked hits is a matching entry with its label and score, and their scores do not decrease |
| DistrictAutocomplete.SuggestionsMatchAndAreRanked | src/features/place-search/model/use-district-autocomplete.ts:23-34 | every suggestion's raw entry is in the directory, its label is that entry's label, and its normalised label contains the normalised query; suggestions come in non-decreasing score order |
| DistrictAutocomplete.CutKeepsBest | src/features/place-search/model/use-district-autocomplete.ts:33-34 | cutting a ranked list drops only hits scoring no better than every kept one |
| DistrictAutocomplete.SuggestionsComplete | src/features/place-search/model/use-district-autocomplete.ts:33-34 | past the guards, the suggestions are the first `limit` ranked hits; when `limit` is at least the number of hits they are all of the hits; otherwise only hits scoring no better than every kept one are dropped |
| DistrictAutocomplete.AllMatchesSuggested | src/features/place-search/model/use-district-autocomplete.ts:23-34 | when `limit` is at least the number of hits, every directory entry whose normalised label contains the query is suggested, with its label |
| ReverseGeocode.NonBlankOne | src/features/detect-location/api/reverse-geocode.ts:25-26 | a part is dropped exactly when it is `undefined` or white space only, and is otherwise kept as its `trim()` |
| ReverseGeocode.NonBlankEmpty | src/features/detect-location/api/reverse-geocode.ts:23-28 | nothing is kept exactly when every part is undefined or white space only |
| ReverseGeocode.NonBlankAppend | src/features/detect-location/api/reverse-geocode.ts:24-26 | what is kept of a concatenation is what is kept of each part, in order |
| ReverseGeocode.JoinAppend | src/features/detect-location/api/reverse-geocode.ts:27 | joining two non-empty lists is joining each with one `sep` between |
| ReverseGeocode.CompactJoinShape | src/features/detect-location/api/reverse-geocode.ts:23-28 | `compactJoin` is `""` exactly when no part is a non-blank string, and never starts or ends with white space |
| ReverseGeocode.CompactJoinNested | src/features/detect-location/api/reverse-geocode.ts:60-65 | joining two `compactJoin` results equals one `compactJoin` of all their parts, in order |
| ReverseGeocode.ComposedNameFlat | src/features/detect-location/api/reverse-geocode.ts:58-66 | the composed name is state, region, county, city, borough, suburb, neighbourhood, road, house number, trimmed, blank ones dropped, separated by single spaces |
| ReverseGeocode.ReverseGeocodeName | src/features/detect-location/api/reverse-geocode.ts:53-73 | a response that is not ok gives `undefined`; the call rejects exactly when an ok body is not JSON or is `null`; a name returned is non-empty and trimmed |
| ReverseGeocode.NamePreference | src/features/detect-location/api/reverse-geocode.ts:58-73 | a non-empty composed name wins; otherwise a non-blank `display_name` is returned trimmed; otherwise `undefined` |
| FavoriteWeathers.FavoriteQueries | src/features/favorites/model/use-favorite-weathers.ts:20-35 | one query per item, with its id, coordinates and name; the zone defaults to Asia/Seoul and `enabled` to true |
| FavoriteWeathers.SummaryOf | src/features/favorites/model/use-favorite-weathers.ts:44-62 | pending or fetching is `loading`; otherwise an error is `error`; otherwise data is `success` with its three temperatures copied; anything else is `loading` |
| FavoriteWeathers.BuildWeatherById | src/features/favorites/model/use-favorite-weathers.ts:37-66 | the indexed loop builds the record item by item (invariant), skipping items without a query |
| FavoriteWeathers.WeatherByIdKeys | src/features/favorites/model/use-favorite-weathers.ts:39-43 | the record has an entry for exactly the ids of the items that have a query |
| FavoriteWeathers.WeatherByIdLastWins | src/features/favorites/model/use-favorite-weathers.ts:39-62 | an item's entry is its own query's summary unless a later item with a query shares its id |
| FavoriteWeathers.WeatherByIdOfFavorites | src/features/favorites/model/use-favorite-weathers.ts:37-66 | for a favorites list (unique ids), each item with a query maps to that query's summary, and nothing else is in the record |
| CurrentPosition.InitialState | src/features/detect-location/model/use-current-position.ts:14-23 | no navigator is `idle`, no geolocation is `error` with the unsupported message, otherwise `loading` (each in both directions) |
| CurrentPosition.ErrorMessage | src/features/detect-location/model/use-current-position.ts:48-54 | code 1 gives the permission message and every other code the retry message (each in both directions) |
| CurrentPosition.PositionTracker.constructor | src/features/detect-location/model/use-current-position.ts:14-29 | the state starts as the initial state, and the position is asked for exactly when geolocation exists |
| CurrentPosition.PositionTracker.OnPosition | src/features/detect-location/model/use-current-position.ts:30-35 | success with the coordinates and no name |
| CurrentPosition.PositionTracker.OnError | src/features/detect-location/model/use-current-position.ts:48-54 | error with the message for the code |
| CurrentPosition.PositionTracker.OnReverseGeocode | src/features/detect-location/model/use-current-position.ts:36-46 | a truthy name is attached to a success state only; no name, another state or a rejection leaves the state unchanged; an attached name is non-empty and trimmed |
| PlaceSearchCard.SuggestionsFor | src/features/place-search/ui/place-search-card.tsx:23-24 | the card's list has at most ten entries |
| PlaceSearchCard.CanShowListIffSuggestions | src/features/place-search/ui/place-search-card.tsx:26-28 | the list is shown exactly when it has an entry (the length guard is implied) |
| PlaceSearchCard.Step | src/features/place-search/ui/place-search-card.tsx:116-131 | ArrowDown gives `i + 1`, or `len - 1` at the last entry; ArrowUp gives `i - 1`, or 0 from the first entry or from -1; both stay in `0..len-1`; Escape gives -1; other keys keep the index |
| PlaceSearchCard.SearchCard.constructor | src/features/place-search/ui/place-search-card.tsx:17-24 | empty query and list, nothing highlighted, idle, no message |
| PlaceSearchCard.SearchCard.Change | src/features/place-search/ui/place-search-card.tsx:107-112 | typing sets the query and its list, goes idle, clears the message and the highlight |
| PlaceSearchCard.SearchCard.Refresh | src/features/place-search/ui/place-search-card.tsx:23-24 | the memoised list is the autocomplete of the new query |
| PlaceSearchCard.SearchCard.Hover | src/features/place-search/ui/place-search-card.tsx:163 | hovering highlights that entry |
| PlaceSearchCard.SearchCard.BeginSelect | src/features/place-search/ui/place-search-card.tsx:36-47 | geocoding, no message, nothing highlighted, and the geocoder is asked for `대한민국 ` + label |
| PlaceSearchCard.SearchCard.FinishSelect | src/features/place-search/ui/place-search-card.tsx:47-61 | no point gives `error` with the not-found message and nothing else changes; a point is handed on as (label, lat, lon), then idle with an empty query and list |
| PlaceSearchCard.SearchCard.KeyDown | src/features/place-search/ui/place-search-card.tsx:113-132 | with no suggestions nothing happens; arrows and Escape step the highlight, which stays within the list; Enter starts selecting `suggestions[max(0, activeIdx)]` |
| Format.FormatHourKst | src/shared/lib/format.ts:16-20 | the label ends with `시` and has at most 3 characters; inputs of length 11 or less give `시`; otherwise it is the characters at 11 and 12 (as far as they exist) then `시` |
| Format.HourOfIsoMinute | src/shared/lib/format.ts:16-19 | on a `YYYY-MM-DDTHH:MM` time the label is the two hour digits then `시` |
| Format.SameHourLabel | src/shared/lib/format.ts:18 | two times get the same label exactly when their slices 11..13 agree, so nothing else is read |
| JsText.Trim | src/features/favorites/model/use-favorites.ts:39 | `trim` returns a contiguous part of its input with only white space before and after it and none at either end of the result, so exactly the white space at the ends is removed; the result is empty exactly for all-white-space input |
| JsText.IndexOf | src/features/place-search/model/use-district-autocomplete.ts:26 | -1 exactly when the query occurs nowhere; otherwise the first position where it occurs |
| JsText.Take | src/features/favorites/model/storage.ts:43 | `slice(0, n)` is the prefix of length min(n, len), and everything when the list is no longer than `n` |
| JsText.LexLeTotal | src/entities/weather/api/open-meteo.ts:43 | any two times are ordered one way or the other |
| JsText.LexLeTransitive | src/entities/weather/api/open-meteo.ts:43 | the time order is transitive |
| StableSort.SortSorted | src/features/favorites/model/storage.ts:42 | the sort's result is ordered by the comparator |
| StableSort.SortPermutes | src/features/favorites/model/storage.ts:42 | the sort's result is a permutation of its input |
| StableSort.SortStable | src/features/favorites/model/storage.ts:42 | equivalent elements keep their input order |
| StableSort.SortOfSorted | src/features/favorites/model/storage.ts:42 | sorting an already ordered list changes nothing |
| StableSort.SortedCut | src/features/favorites/model/storage.ts:42-43 | the first `n` sorted elements are ordered and drawn from the input, and are all of it when nothing is cut |
| StableSort.SortedCutStable | src/features/favorites/model/storage.ts:42-43 | the first `n` sorted elements keep each equivalence class in input order, cut short |

## Left out

- HTTP: `fetch`, URL building and request headers. A response is its `ok` flag and the parsed body.
- AbortController cancellation and promise interleaving. The handlers are methods that run one at a time.
- `forward-geocode.ts`. It is a network call plus float parsing, and the search card receives its answer as a parameter.
- `PlaceSearchCard.SearchCard.FinishSelect`: a forward lookup that rejects (a failed `fetch`, or a body that is not JSON) is not an answer it receives. `selectSuggestion` awaits the lookup without a try/catch, so on a rejection the card stays in `Geocoding` with `message == None` and no selection; only a resolved lookup, with or without a point, is modelled.
- Browser storage plumbing:
  - `localStorage` and the `typeof window` guard;
  - the `realteeth:favorites:changed` and `storage` events, and cross-tab re-sync.
  The written lists are kept as a ghost log.
- `JSON.parse` and `JSON.stringify`. Parsing is a parameter and stringifying is the identity on `Json` values.
- The clock and time zones: `Date.now`, and `getTodayIsoDateInTimeZone` with `Intl.DateTimeFormat`. They become the `now` and `today` parameters.
- React and react-query machinery: `useState`, `useMemo`, `useEffect` and `useQueries` with its caching and retry. Each query state is an input.
- `formatTempC`. It is `Math.round` on a float, and temperatures are opaque `real` values here.
- `FavoritesStorage.FixedKeyOf`: does not model IEEE-754 doubles. `toFixed(5)` is modelled on exact reals, rounding half up on the magnitude, and values of 1e21 or more, which `toFixed` writes in exponent form, are not distinguished.
- `JsText.ToLower`: maps only the ASCII letters. Other case mappings of `toLowerCase` are not modelled.
- `JsText.LexLe`: compares characters, where `localeCompare` uses locale collation. The two agree on the ISO timestamps it is applied to.
- String lengths count Dafny characters (code points), not UTF-16 code units.
- `FavoritesStore.Favorites.Remove`: does not model a throwing write. The source has no try/catch there, so the exception would escape `remove` before `setItems`.
- `PlaceSearchCard.SearchCard`: the district directory is fixed when the card is made. The loading and error states of `useKoreaDistricts`, which only switch the directory between empty and loaded and disable the input, are not modelled.
- `DistrictAutocomplete.Hits`: directory entries are strings, so the `typeof raw !== 'string'` skip never applies.
- JSON numbers are finite reals: the `Infinity` that `JSON.parse` gives for an out-of-range literal such as `1e400`, and the `NaN` the `createdAt` comparator would then return, are not modelled.
- Object keys beyond the ones read are ignored. `Get` models property reads on objects only, since the keys read are never `length` or an index.
