# El tiempo en la montaña — a verified model of the forecast client

This project models the core of a React front end that shows AEMET (Agencia Estatal de
Meteorología) open-data forecasts. For a municipality it shows the hourly forecast, and for a
mountain zone it shows the avalanche bulletin. The model covers:

- **HTTP client** (`HttpClient`). `fetchWithRetry` classifies the HTTP status and reads the
  body as JSON, or as text with a Latin-1 fallback. A text that looks like JSON is parsed.
  Every failure is retried with a doubling back-off.
- **AEMET service** (`WeatherService`). `getAemetData` uses the two-hop protocol: an envelope
  request, its `estado` check, then the download of the `datos` link, which is rewritten
  for the development proxy.
- **Data hooks** (`UseWeather`):
  - the endpoint and the cache key of the weather query;
  - the shaping of its payload;
  - the error text;
  - the municipality list: the `"id"` prefix is stripped from each identifier, and the list
    is sorted by name.
- **Mountain view** (`WeatherMountainView`). The bulletin text is parsed into per-area
  danger estimates. The per-line loop is an imperative method proved against a
  specification function. The view also covers the danger colours and the `'?'` shown for
  level 0.
- **Daily view** (`WeatherDailyView`):
  - the forecast days are flattened into one entry per temperature reading, joined by
    `periodo`, and sorted by timestamp;
  - the current hour is picked out, with the twelve-hour window that follows it.

  The nested loops are methods proved against specification functions.
- **Location menu** (`LocationMenu`). The search filter, and the rule for when the
  mountain-zone section is shown.
- **App shell** (`App.AppShell`). A class with the tab, the selected location and the menu
  flag. Its handlers change them. It also chooses which view is drawn.
- **Avalanche badge** (`AvalancheBadge`). The level is clamped to 1..5 and picks the
  badge's colour and label.
- **Weather icon** (`WeatherIcon`). The chain of condition tests and the night variants.

Effects are parameters:

- The network is an oracle `(Request, nat) -> FetchOutcome`. The `nat` is the position of
  the attempt in time, so one request can fail and later succeed.
- The UTF-8 decoder, `response.json()` and `JSON.parse` are oracles in `Codecs`.
- The start of the current hour is an integer `hourStart`, and `parseISO` is an oracle
  from a timestamp string to a time. `None` stands for an invalid date.
- Whether the page runs on a local host is the boolean `isLocal`.
- The API key and the mountain zones of the configuration module are parameters.

The helper modules hold the JavaScript semantics the source relies on:

- `Wrappers`: the `Option` and `Result` datatypes.
- `JsStrings`: `indexOf`, `includes`, `split`, `trim`, `toLowerCase`, `padStart`,
  `replace` and `parseInt`.
- `Seqs`: `find`, `findIndex`, `filter` and `slice`.
- `Sorting`: a stable sort by a string key (stability is `Sorting.SortByStable`).
- `JsValue`: JSON values, member access, truthiness and `String(v)`.

Two behaviours of the code are worth knowing before reading the model:

- The download link of the second hop is changed only on a local host, where the AEMET
  host is cut out of it. Everywhere else `datos` is requested as it is
  (src/api/weatherService.ts:37). `WeatherService.DataUrl` does the same.
- The text path is modelled with the intended replacement-character check, not with the
  check as written (see "## Findings" and "## Left out").

## Model

| member | source | states |
|---|---|---|
| WeatherMountainView.Levels | src/components/weather/WeatherMountainView.tsx:35-36 | the levels of a text are single digits 0..9 |
| WeatherMountainView.LevelsExactly | src/components/weather/WeatherMountainView.tsx:35-36 | d is among the levels of a text iff the text has an occurrence "(d)" with d one digit |
| WeatherMountainView.LevelsJoin | src/components/weather/WeatherMountainView.tsx:46-49 | the levels of `description + ' ' + line` are the description's levels followed by the line's (the continuation's `push`) |
| WeatherMountainView.DistinctDescending | src/components/weather/WeatherMountainView.tsx:57 | `[...new Set(levels)].sort((a,b) => b-a)` is strictly descending and holds exactly the values of its input |
| WeatherMountainView.OpeningLineFields | src/components/weather/WeatherMountainView.tsx:32-42 | the area is the trimmed text before the first colon; the description is the trimmed rest, later colons kept |
| WeatherMountainView.Classify | src/components/weather/WeatherMountainView.tsx:32-50 | a line opens a record iff it contains ':'; it is skipped iff it has no ':' and trims to "" |
| WeatherMountainView.ScanSnoc | src/components/weather/WeatherMountainView.tsx:31-51 | one more line changes the records exactly as the loop body does for that line |
| WeatherMountainView.ScanSection | src/components/weather/WeatherMountainView.tsx:28-51 | the `for` loop over the lines, with `currentArea` as the last record, computes the scan of the lines |
| WeatherMountainView.ScanAreas | src/components/weather/WeatherMountainView.tsx:32-43 | the records' areas are the areas of the colon lines in order, one record per colon line |
| WeatherMountainView.ScanLevels | src/components/weather/WeatherMountainView.tsx:44-49 | each record's levels are exactly the levels of its accumulated description |
| WeatherMountainView.BlankLinesIgnored | src/components/weather/WeatherMountainView.tsx:44 | appending blank lines changes no record |
| WeatherMountainView.LeadingProseIgnored | src/components/weather/WeatherMountainView.tsx:44 | colon-free lines before any record produce no record |
| WeatherMountainView.Finalize | src/components/weather/WeatherMountainView.tsx:54-58 | area and description are kept; levels are non-empty, strictly descending, `[0]` when none were found, else the same values |
| WeatherMountainView.FinishItems | src/components/weather/WeatherMountainView.tsx:53-59 | every surviving estimate has a non-blank area and is the finalised form of a scanned record |
| WeatherMountainView.FinishNames | src/components/weather/WeatherMountainView.tsx:59 | the filter keeps exactly the non-blank areas, in order |
| WeatherMountainView.FinishedAreas | src/components/weather/WeatherMountainView.tsx:31-59 | the output areas are the non-blank areas of the colon lines, in line order |
| WeatherMountainView.BlankAreaSwallowsContinuations | src/components/weather/WeatherMountainView.tsx:38-59 | a colon line with a blank area still takes the following colon-free lines, and all of them vanish from the output |
| WeatherMountainView.DangerWindow | src/components/weather/WeatherMountainView.tsx:21-25 | no heading gives None; otherwise the window runs from the first heading to the first "2.- Estado del manto" at or after it, or to the end |
| WeatherMountainView.BodyLines | src/components/weather/WeatherMountainView.tsx:27 | every body line is free of line breaks |
| WeatherMountainView.BodyAfterTwoBreaks | src/components/weather/WeatherMountainView.tsx:27 | with the first two breaks at i < j, the body is the '\n'-split of the text after j, and joining it with '\n' gives back exactly that text |
| WeatherMountainView.ShortSectionNoBody | src/components/weather/WeatherMountainView.tsx:27 | a window with no line break, or with exactly one, has no body lines |
| WeatherMountainView.ParseDangerLevels | src/components/weather/WeatherMountainView.tsx:19-60 | the imperative parser computes the specification `DangerLevels` |
| WeatherMountainView.NoHeadingNoEstimate | src/components/weather/WeatherMountainView.tsx:20-22 | the result is null iff the text is empty or lacks the estimate heading |
| WeatherMountainView.EstimatesWellFormed | src/components/weather/WeatherMountainView.tsx:53-59 | every estimate has a non-blank area and strictly descending levels: exactly the levels of its description, or `[0]` |
| WeatherMountainView.EstimateAreas | src/components/weather/WeatherMountainView.tsx:53-59 | the estimates' areas are the non-blank colon-line areas in order, never more estimates than colon lines |
| WeatherMountainView.ColourOf | src/components/weather/WeatherMountainView.tsx:97-102 | red iff level ≥ 4, orange iff 3, yellow iff 2, green iff ≤ 1 |
| WeatherMountainView.LevelText | src/components/weather/WeatherMountainView.tsx:103 | "?" iff the level is 0, otherwise the level's decimal numeral, which parses back to the level |
| WeatherMountainView.ParsedDangerLevels | src/components/weather/WeatherMountainView.tsx:62 | a non-string bulletin gives null; a string is parsed |
| WeatherDailyView.OrZero | src/components/weather/WeatherDailyView.tsx:42 | `x \|\| '0'` is "0" iff x is missing, empty or "0", otherwise x |
| WeatherDailyView.HourBasics | src/components/weather/WeatherDailyView.tsx:18-39 | the timestamp splits at its first 'T' back into the day's date and, for a period of at most two characters, has the fixed width of "THH:00:00" after it; a period that is the numeral of n, or a two-character period '0' followed by the digit n (such as "07"), gives hour n; the temperature is the reading's value |
| WeatherDailyView.HourSky | src/components/weather/WeatherDailyView.tsx:26 | sky and icon come from the first sky entry with the same `periodo`, both undefined when there is none |
| WeatherDailyView.HourPrecip | src/components/weather/WeatherDailyView.tsx:27 | precipitation is the first same-period value or '0' |
| WeatherDailyView.HourHumidity | src/components/weather/WeatherDailyView.tsx:28 | humidity is the first same-period value, undefined when there is none |
| WeatherDailyView.HourSens | src/components/weather/WeatherDailyView.tsx:29 | apparent temperature is the first same-period value, undefined when there is none |
| WeatherDailyView.HourWind | src/components/weather/WeatherDailyView.tsx:32-34 | speed and direction are element 0 of the first same-period entry with a truthy `velocidad`, and the gust is the first with a truthy `value` |
| WeatherDailyView.DateTimeOfParts | src/components/weather/WeatherDailyView.tsx:18-23 | the timestamp is the date before the first 'T', 'T', the period padded to width 2, ":00:00"; the date is recoverable |
| JsStrings.ParseIntHex | src/components/weather/WeatherDailyView.tsx:38 | `parseInt` with no radix reads a "0x" prefix followed by hexadecimal digits in base 16, and a bare "0x" as NaN |
| JsStrings.ParseIntHexExamples | src/components/weather/WeatherDailyView.tsx:38 | a period "0x1A" gives hour 26 and a period "0x" gives NaN |
| WeatherDailyView.PeriodHour | src/components/weather/WeatherDailyView.tsx:38 | `parseInt` reads the hour n back from its numeral and from the zero-padded numeral |
| WeatherDailyView.DayHours | src/components/weather/WeatherDailyView.tsx:21-52 | one entry per temperature reading of the day |
| WeatherDailyView.PushDay | src/components/weather/WeatherDailyView.tsx:21-53 | the inner `forEach` appends exactly the day's entries, in reading order |
| WeatherDailyView.Flatten | src/components/weather/WeatherDailyView.tsx:16-54 | the outer `forEach` builds the concatenation of every day's entries |
| WeatherDailyView.ComputeHourlyData | src/components/weather/WeatherDailyView.tsx:13-57 | the whole memo computes the specification `HourlyData` |
| WeatherDailyView.FlatLength | src/components/weather/WeatherDailyView.tsx:17-36 | the flattened length is the sum of the days' temperature-array lengths |
| WeatherDailyView.FlatOrigin | src/components/weather/WeatherDailyView.tsx:17-52 | every flattened entry is the entry of some day's temperature reading |
| WeatherDailyView.HourlyDataShape | src/components/weather/WeatherDailyView.tsx:14-56 | missing `dia` gives []; otherwise the output is a permutation of the flattened entries, of the summed length, in non-decreasing `dateTime` order |
| WeatherDailyView.DayFieldsShared | src/components/weather/WeatherDailyView.tsx:49-51 | every hour of a day carries that day's `orto`, `ocaso` and first `probPrecipitacion` value (or '0') |
| WeatherDailyView.EmptyHourly | src/components/weather/WeatherDailyView.tsx:61-73 | an empty list has no current entry and an empty window |
| WeatherDailyView.CurrentWindow | src/components/weather/WeatherDailyView.tsx:60-77 | current is the first entry not before the hour's start (else entry 0), every earlier one is strictly before it; the window starts at current, has 1..12 entries, and its head is current |
| HttpClient.StatusError | src/api/httpClient.ts:5-6 | no error iff the status is ok; 429 gives the rate-limit message, any other non-ok status the server message |
| HttpClient.ServerErrorCarriesStatus | src/api/httpClient.ts:6 | the status can be read back from the server error message |
| HttpClient.AttemptStatus | src/api/httpClient.ts:5-6 | a non-ok response fails with its message before the body is decoded |
| HttpClient.AttemptBody | src/api/httpClient.ts:8-35 | a JSON content type returns the JSON reader's result and skips the text path; any other ok response succeeds with the text path's value, which equals the value with the check as written whenever UTF-8 decoding produced a replacement character |
| HttpClient.Latin1 | src/api/httpClient.ts:23 | ISO-8859-1 decoding: one character per byte, of the byte's code |
| HttpClient.AsWrittenAlwaysLatin1 | src/api/httpClient.ts:22-24 | with the check as written, every text body is re-decoded as ISO-8859-1 |
| HttpClient.AsWrittenGarblesUtf8 | src/api/httpClient.ts:22 | as written, the UTF-8 bytes of "é" come out as "Ã©"; with the intended check they stay "é" |
| HttpClient.Latin1Clean | src/api/httpClient.ts:23 | a Latin-1 decoding holds no replacement character |
| HttpClient.FinalTextChoice | src/api/httpClient.ts:15-24 | a clean UTF-8 decoding is kept as is; one with a replacement character is replaced by the Latin-1 decoding of the same bytes; the result never holds U+FFFD |
| HttpClient.InterpretText | src/api/httpClient.ts:27-35 | text whose trimmed form starts with '[' or '{' is the parsed value when parsing succeeds; otherwise the text itself |
| HttpClient.FallbackAgrees | src/api/httpClient.ts:21-24 | the check as written and the intended check give the same text when the UTF-8 decoding holds U+FFFD; on clean UTF-8 text the one as written still switches to Latin-1 and the intended one keeps the text |
| HttpClient.ReadText | src/api/httpClient.ts:15-35 | the text path, with its reassignment of the content, computes the interpreted final text |
| HttpClient.Retry | src/api/httpClient.ts:36-42 | 1..N+1 attempts; waits double from `backoff`; the result is the last attempt's; every earlier attempt failed; stopping early means success |
| HttpClient.FetchWithRetry | src/api/httpClient.ts:1-43 | the recursion run over the attempts of one request against the network |
| HttpClient.Fetch | src/api/httpClient.ts:1 | with the defaults (5 retries), at most six attempts |
| HttpClient.DelayIsPower | src/api/httpClient.ts:39 | the wait before attempt k+2 is backoff·2^k |
| HttpClient.AlwaysFailing | src/api/httpClient.ts:36-42 | against attempts that all fail, a budget of N makes exactly N+1 attempts with waits backoff·2^k and raises the last error |
| HttpClient.SumDoubling | src/api/httpClient.ts:38-39 | waits that double from `backoff`, k of them, add up to the next wait less `backoff` |
| HttpClient.TotalWait | src/api/httpClient.ts:38-39 | after k waits, their sum is backoff·(2^k − 1) |
| HttpClient.DefaultsExhausted | src/api/httpClient.ts:1 | with the defaults 5 and 1000 and no success: six attempts, waits 1000, 2000, 4000, 8000, 16000 ms, 31000 ms in all |
| WeatherService.BaseUrl | src/api/weatherService.ts:5-8 | "/opendata/api" on a local host, "https://opendata.aemet.es/opendata/api" otherwise |
| WeatherService.MetadataUrlParts | src/api/weatherService.ts:18 | the metadata URL is base, '/' and the endpoint, which can be read back; off a local host it is on the AEMET host |
| WeatherService.MetadataRequest | src/api/weatherService.ts:20-26 | the first hop is a GET whose two headers are the API key and `Accept: application/json` |
| WeatherService.CheckEnvelope | src/api/weatherService.ts:31-33 | the envelope passes iff `estado` is exactly 200, and then gives `datos`; null or undefined throws on reading `estado` |
| WeatherService.RejectedEnvelopeMessage | src/api/weatherService.ts:32 | a rejected envelope raises `descripcion`, or "Respuesta inválida de AEMET" when that is falsy |
| WeatherService.DataUrl | src/api/weatherService.ts:37 | off a local host the link is `datos` unchanged; on a local host the first AEMET host occurrence is removed, and a non-string throws |
| WeatherService.LocalLinkThroughProxy | src/api/weatherService.ts:37 | on a local host an absolute AEMET link becomes its path; a link without the host is kept |
| WeatherService.GetAemetData | src/api/weatherService.ts:17-39 | one or two hops; the first is always the metadata request; a second uses default options; one hop means failure |
| WeatherService.NoSecondHopOnFailure | src/api/weatherService.ts:29-33 | a failed first hop or a rejected envelope is the result, and no second request is made |
| WeatherService.TwoHopsOnSuccess | src/api/weatherService.ts:29-38 | a second request is made iff the first hop, the envelope and the link are good; it goes to the link with default options, and its result is returned as is |
| UseWeather.EndpointInjective | src/hooks/useWeather.ts:15-24 | the endpoints of different tabs or ids differ, and the id is the endpoint's tail |
| UseWeather.ShapeResponse | src/hooks/useWeather.ts:16-30 | `localidad`: weather is `response[0]` or null, nivologica null; `zona`: weather null, nivologica element 0 of an array or the payload itself |
| UseWeather.ForecastListShaping | src/hooks/useWeather.ts:19 | a forecast list gives its first forecast, an empty list gives null |
| UseWeather.QueryFn | src/hooks/useWeather.ts:13-32 | the query fetches the tab's endpoint; a fetch error is the query error, a payload is shaped |
| UseWeather.QueryKey | src/hooks/useWeather.ts:12 | the key is exactly the three strings 'weather', the tab's name and the id |
| UseWeather.QueryKeyInjective | src/hooks/useWeather.ts:12 | two queries share a key iff they have the same tab and id |
| UseWeather.EnabledIff | src/hooks/useWeather.ts:33 | the query is enabled iff the id is non-empty |
| UseWeather.ErrorText | src/hooks/useWeather.ts:38 | null without an error; the message when non-empty; else "Error al conectar con AEMET" |
| UseWeather.ErrorTextNonEmpty | src/hooks/useWeather.ts:38 | an error is never shown as "" |
| UseWeather.ToLocation | src/hooks/useWeather.ts:52-55 | name is `nombre`, kind is municipality, an id without "id" is kept |
| UseWeather.ToLocationStripsPrefix | src/hooks/useWeather.ts:53 | "id" + code becomes code |
| UseWeather.MunicipioList | src/hooks/useWeather.ts:52-56 | same length, a permutation of the mapped entries, sorted by name |
| Sorting.SortByStable | src/hooks/useWeather.ts:56 | the sort keeps elements with equal keys in their input order: for every key, the sorted sequence filtered to that key equals the input filtered to it |
| UseWeather.MunicipioListMembers | src/hooks/useWeather.ts:52-56 | every municipality is listed, and every listed item is a mapped municipality |
| LocationMenu.FilteredMunicipios | src/components/layout/LocationMenu.tsx:18-26 | at most 50 items; [] while the list is missing |
| LocationMenu.BlankQueryListsHead | src/components/layout/LocationMenu.tsx:20 | a blank query lists the first min(50, n) items |
| LocationMenu.SearchFirstMatches | src/components/layout/LocationMenu.tsx:22-25 | a non-blank query lists min(50, number of matches) items, and a match with fewer than 50 matches before it is listed at the position given by the number of those earlier matches, so the list is the first matches in list order |
| LocationMenu.SearchSoundAndComplete | src/components/layout/LocationMenu.tsx:22-25 | every listed item matches the lower-cased trimmed query; if at most 50 match, all matches are listed |
| LocationMenu.FilteredIsSubsequence | src/components/layout/LocationMenu.tsx:19-25 | the result is an order-preserving subsequence of the list |
| LocationMenu.ZonesWithDefaultList | src/components/layout/LocationMenu.tsx:83 | zones show only for the empty query, with the default list; a query of spaces hides them |
| App.AppShell.constructor | src/App.tsx:45-48 | initial state: `localidad`, "22170", menu closed |
| App.AppShell.HandleSelection | src/App.tsx:54-58 | the tab follows the kind, the id is set, and the menu closes |
| App.AppShell.HandleTabChange | src/App.tsx:60-67 | the tab is set, the id reset to "22170" or to the first zone's id, and the menu is unchanged |
| App.AppShell.ToggleMenu | src/App.tsx:81 | the flag flips and nothing else changes |
| App.AppShell.CloseMenu | src/App.tsx:86 | the menu closes and nothing else changes |
| App.AppShell.ActiveName | src/App.tsx:69-74 | zone tab: a matching zone's name or ""; otherwise a matching municipality's name or "Panticosa", never "" |
| App.ActiveNameLookup | src/App.tsx:69-74 | zone tab: the name of the first zone with the selected id, "" when none has it; `localidad` tab: the first matching municipality's name when non-empty, "Panticosa" when the list is missing, nothing matches or that name is empty |
| App.AppShell.SelectView | src/App.tsx:94-119 | an error, then loading, then (with data) the daily view, the notice or the mountain view by tab and weather, then the placeholder |
| App.ErrorHasPriority | src/App.tsx:94-95 | a non-empty error message hides whatever is loading or loaded |
| App.DataViews | src/App.tsx:98-111 | with data, `localidad` shows the daily view iff the weather is truthy; `zona` shows the mountain view |
| App.Session | src/App.tsx:45-67 | starting, opening the menu, picking a zone (which enables its query) and switching back to `localidad` ends on "22170" with the menu closed |
| AvalancheBadge.SafeLevel | src/components/ui/AvalancheBadge.tsx:10 | the clamped level is always in 1..5 |
| AvalancheBadge.SafeLevelCases | src/components/ui/AvalancheBadge.tsx:10 | ≤ 0 gives 1, > 5 gives 5, 1..5 unchanged |
| AvalancheBadge.SafeLevelIdempotent | src/components/ui/AvalancheBadge.tsx:10 | clamping is idempotent |
| AvalancheBadge.Colour | src/components/ui/AvalancheBadge.tsx:14 | `colors[safeLevel-1]` is always a valid index |
| AvalancheBadge.Label | src/components/ui/AvalancheBadge.tsx:19 | `labels[safeLevel-1]` is always a valid index |
| AvalancheBadge.LabelMatchesLevel | src/components/ui/AvalancheBadge.tsx:8-19 | the label ends with the shown level in parentheses; different levels have different colours and labels |
| WeatherIcon.SkyOf | src/components/ui/WeatherIcon.tsx:15-32 | each word class holds iff its word occurs and none of the words tested before it does, in the order tormenta, nieve, lluvia, despejado/sol, nubes/nuboso, cubierto; the default iff none of the eight occurs |
| WeatherIcon.Render | src/components/ui/WeatherIcon.tsx:15-32 | the glyph and colour classes of every word class; clear is Moon at night and Sun by day, cloudy CloudMoon or CloudSun; the rain cloud is drawn exactly for rain and overcast; a moon only at night |
| WeatherIcon.NightOnlyForClearAndCloudy | src/components/ui/WeatherIcon.tsx:19-28 | night changes the icon only for clear and cloudy conditions |
| WeatherIcon.StormWins | src/components/ui/WeatherIcon.tsx:15 | "tormenta" gives the lightning cloud whatever else the text says |
| WeatherIcon.EmptyConditionIsCloud | src/components/ui/WeatherIcon.tsx:10-32 | a missing or empty condition gives the default Cloud |
| WeatherIcon.CaseInsensitive | src/components/ui/WeatherIcon.tsx:10 | the condition's letter case does not matter |

## Left out

- HttpClient.ReadText, HttpClient.Attempt: they use the intended check for a replacement
  character (U+FFFD). The check as written at src/api/httpClient.ts:22 tests for the empty
  string and so always re-decodes as ISO-8859-1. Through them, `FetchWithRetry`, `Fetch`,
  `GetAemetData` and `QueryFn` give the clean UTF-8 text where the code gives its Latin-1
  decoding. `HttpClient.FallbackAgrees` states exactly where the two differ, and
  `HttpClient.AsWrittenAlwaysLatin1` gives the behaviour as written.
- HttpClient.AttemptBody: its text-path clause is stated against the intended check. It
  agrees with the code only for bodies whose UTF-8 decoding holds U+FFFD. The reason is
  the one above.

- The network, `setTimeout`, `TextDecoder('utf-8')`, `response.json()` and `JSON.parse` are
  foreign. They are oracles, and waiting is recorded as a list of delays, not performed.
- A rejection of `response.arrayBuffer()` is not modelled: the body bytes are part of the
  response.
- `TextDecoder('iso-8859-1')`: browsers decode this label as windows-1252, which maps bytes
  0x80–0x9F differently. The model uses the ISO-8859-1 table.
- `localeCompare(…, 'es')`: Spanish collation is replaced by code-point order, for both the
  timestamps and the municipality names.
- Strings are sequences of code points. JavaScript string lengths count UTF-16 code units,
  which changes `padStart` only for periods holding characters outside the Basic
  Multilingual Plane: JavaScript does not pad such a one-character period, and
  `JsStrings.PadStart` pads it to "0" followed by the character.
- `toLowerCase` covers ASCII and Latin-1 capitals only. Other Unicode case mappings are not
  modelled.
- `parseISO`, `startOfHour`, `new Date()` and time zones: these are replaced by the integer
  `hourStart` and the `toTime` oracle.
- JavaScript numbers:
  - Numbers are integers. NaN, fractions and 53-bit limits are not modelled.
  - AvalancheBadge.SafeLevel does not model a NaN level, which the source maps to 1.
  - `JsValue.ToJsString` writes integers in plain decimal.
- Error messages are V8's wording for the `TypeError` of reading a property of `null` or
  `undefined`.
- Cast JSON is not modelled:
  - The daily view takes the typed `WeatherData` record; the TypeScript cast from JSON is
    not modelled.
  - `useMunicipios` takes entries already typed as `{ id, nombre }`, so its `TypeError` on a
    non-array response or a non-string id is not modelled.
- React Query is library behaviour and is left out: caching, staleness, `retry: 1`, the
  loading flag and `refetch`.
- React state outside the app shell is left out: the menu's `searchQuery` state and its
  clear button.
- `ErrorBoundary`, the markup-only components and all styling are left out, apart from the
  class strings that the icon and badge choose between.
- `src/types/index.ts` gives the datatypes; it is not a model target. The configuration
  module that holds the zones and the API key is not part of this model.

## Findings

| source | as written | input that shows it | evidently intended | confidence | as-written member | corrected member |
|---|---|---|---|---|---|---|
| src/api/httpClient.ts:22 | `text.includes('')` tests for the empty string, which every string contains, so every text body is re-decoded as ISO-8859-1 | the bytes C3 A9 ("é" in UTF-8) come out as "Ã©" | re-decode only when UTF-8 decoding produced U+FFFD, as the comment on lines 19-20 says | high, not executed | HttpClient.AsWrittenGarblesUtf8 | HttpClient.FinalTextChoice |
