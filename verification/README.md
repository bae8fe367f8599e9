# StatiMatch core, modelled in Dafny

StatiMatch is a React front end over a language-model service that predicts
football and basketball matches. Most of it is presentation or network glue.
This project models the parts that are plain, sequential logic over strings
and lists, and proves what they do. It covers:

- **the service layer** (`services/geminiService.ts`):
  - how `parseJSON` picks the substring it hands to `JSON.parse`;
  - the retry rule of `analyzeMatchDeeply`;
  - the de-duplication of grounding sources by URI;
  - id stamping and the fixed fallback lists of `fetchUpcomingMatches` and `processBookingCode`.
- **the application shell** (`App.tsx`):
  - the bet slip (toggle, remove, clear);
  - the status machine around fixture loading and analysis;
  - the strict date filter;
  - the default date;
  - the rotating loading message.
- **the component helpers**:
  - the selection-id slug and the selected test;
  - the team-name split;
  - the team colour hash (three identical copies) and the initials;
  - the confidence colours;
  - the bet-builder copy text and label;
  - the fixture filter, manual-entry guard and date label;
  - the booking-code form.

Modules, one per file:

- `results.dfy` (module Results): `Option` / `Result`
- `text.dfy` (module Text): JavaScript string primitives: `\s`, `trim`, `includes`, `indexOf`, `lastIndexOf`, `split` on a character, ASCII case mapping, decimal formatting
- `seqs.dfy` (module Seqs): `Array.prototype.filter` and subsequences
- `domain.dfy` (module Domain): types.ts
- `response_parser.dfy` (module ResponseParser): `parseJSON`
- `grounding_sources.dfy` (module GroundingSources): the grounding-source filter, map and `Map`
- `gemini_service.dfy` (module GeminiService): retry rule, analysis result, ids, fallback lists
- `bet_slip.dfy` (module BetSlip): the slip handlers of App.tsx
- `app_shell.dfy` (module AppShell): App.tsx state and events
- `analysis_view.dfy` (module AnalysisView): helpers of components/AnalysisResult.tsx
- `team_badge.dfy` (module TeamBadge): `getTeamColor` and the initials, shared by three components
- `bet_builder.dfy` (module BetBuilder): components/BetBuilder.tsx
- `match_selector.dfy` (module MatchSelector): components/MatchSelector.tsx
- `booking_code.dfy` (module BookingCode): components/BookingCodeSection.tsx

## How the model represents the system

- Strings are `seq<char>`.
- `\s` and `trim` use the ECMAScript whitespace set exactly.
- `toLowerCase` and `toUpperCase` are restricted to ASCII letters.
- `JSON.parse` is a parameter `parse: string -> Result<J, string>`; the model decides only which substring it receives.
- A model call is a value:
  - a `Reply` (text and grounding chunks) or a `CallError` (status and code);
  - for the two-model retry, a function from the model tier to such an outcome.
- `Date.now()` is a parameter `clock: nat -> nat`, read once per record, in record order.
- `new Date()` becomes the year, month and day passed to `DefaultDate`.
- `getTeamColor` reads UTF-16 code units, so a name is first encoded to UTF-16. The hash is computed exactly as the loop writes it: `<<` applies ECMAScript ToInt32 to its operand and its result, and the rest is exact arithmetic.
- App.tsx is an event-driven transition function `AppShell.Step`:
  - the awaited results of the fixture fetch and of the analysis arrive as events;
  - the fixture events carry the sport and date that the loading effect captured.

`Map` keeps the first position of a URI but the last value stored under it.
So, for a repeated URI, the source list keeps the title of the LAST chunk,
not the first.

## Model

| member | source | states |
|---|---|---|
| ResponseParser.FencedCaptureExact | services/geminiService.ts:6 | For text laid out as the first "```json", whitespace, a body, whitespace and the first closing fence, the captured group is exactly that body: leading whitespace skipped, trailing whitespace before the fence excluded, ending at the first fence |
| ResponseParser.FencedCaptureShape | services/geminiService.ts:6 | Conversely, whenever the fenced regex matches, the text has that layout and the capture is the body |
| ResponseParser.FencedCaptureNoneIff | services/geminiService.ts:6 | The fenced regex fails exactly when no closing fence follows any "```json" opener |
| ResponseParser.BraceSpanExact | services/geminiService.ts:7 | The backup regex matches from the first '{' to the last '}', both included |
| ResponseParser.BraceSpanNoneIff | services/geminiService.ts:7 | The backup regex fails exactly when no '}' follows a '{' |
| ResponseParser.ParseJson | services/geminiService.ts:10-29 | "No JSON found" exactly when no rule yields a candidate; otherwise the result is `JSON.parse` of the chosen candidate, and its error is rethrown unchanged |
| ResponseParser.FencedBranchWins | services/geminiService.ts:12-15 | A non-blank fenced body is what is parsed, and only its parse decides success: a parse error there is final and the later rules are never tried |
| ResponseParser.BlankFenceFallsThrough | services/geminiService.ts:13 | A fenced body that is empty or only whitespace captures "", so the cascade falls through to the brace rule |
| ResponseParser.BraceBranchWins | services/geminiService.ts:16-19 | With no usable fence, the greedy brace span is what is parsed |
| ResponseParser.WholeBranchOnlyIf | services/geminiService.ts:21-23 | The whole text is parsed only when no fence applies, no '}' follows a '{', and the trimmed text starts with '{' |
| ResponseParser.NoJsonIff | services/geminiService.ts:24 | "No JSON found in response" is thrown exactly when no fence applies, no '}' follows a '{', and the trimmed text does not start with '{' |
| GroundingSources.Citations | services/geminiService.ts:224-226 | A source is produced exactly for the chunks whose web, uri and title are all truthy, with a non-empty title and uri |
| GroundingSources.CitationsInOrder | services/geminiService.ts:224-226 | The i-th source is made from the i-th citable chunk, so the sources keep chunk order and repeats |
| GroundingSources.UniqueByUri | services/geminiService.ts:228 | The result has pairwise distinct URIs, holds exactly the input URIs, keeps for each URI the last record with it, and orders URIs by their first appearance |
| GroundingSources.UniqueStep | services/geminiService.ts:228 | One `map.set` keeps distinctness, the URI set, the last-record value and the first-appearance order |
| GroundingSources.RepeatedUriKeepsLastTitle | services/geminiService.ts:228 | Two citations of one URI collapse to the second one |
| GeminiService.Obtain | services/geminiService.ts:193-217 | The primary reply if it answers. After a retryable failure, the fallback's reply or the fallback's error. Any other failure is rethrown as is |
| GeminiService.ShouldFallBack | services/geminiService.ts:205 | A failure is retried on the fallback model exactly when its status is 429 or 503 or its code is 429 |
| GeminiService.Attempt | services/geminiService.ts:193-217 | The primary model is called first; a second call, if any, goes to the fallback model |
| GeminiService.FallbackIff | services/geminiService.ts:205 | The fallback model is called, and only once, exactly when the primary fails with status 429, code 429 or status 503. In terms of the outcome alone: otherwise the fallback's reply cannot change it, and in that case every change to the fallback's reply changes it |
| GeminiService.ObtainReadsOnlyCalledModels | services/geminiService.ts:193-217 | The outcome depends only on the models actually called |
| GeminiService.AnalyzeMatchDeeply | services/geminiService.ts:219-233 | A call failure propagates. Otherwise it succeeds exactly when the reply text parses, and a parse error is reported as such. On success the report is the parsed reply text and the sources are the citations of the obtained reply with repeated URIs merged; they have distinct, non-empty URIs and non-empty titles |
| GeminiService.AnalysisSourcesAreCitations | services/geminiService.ts:223-228 | Every returned source is a citation of the response, and every citation's URI is represented |
| GeminiService.MatchString | services/geminiService.ts:141 | A query string is used as is; a fixture is described by its fixture line |
| Domain.FixtureLine | services/geminiService.ts:141 | The line is home, " vs ", away, " (", league and ")" end to end, each part at its own offset |
| Domain.FixtureLineInjective | services/geminiService.ts:141 | With the team-name lengths fixed, the line determines home, away and league |
| GeminiService.MatchStringIgnoresOtherFields | services/geminiService.ts:141 | A fixture's match string depends only on home, away and league |
| GeminiService.StampIdInjective | services/geminiService.ts:69 | `prefix + idx + "-" + now` ids of different indices differ, whatever the clock reads |
| GeminiService.StampAllDistinct | services/geminiService.ts:67-70 | Stamped records have pairwise distinct ids |
| GeminiService.FallbackListsShape | services/geminiService.ts:74-81 | The fixture fallback has 6 records and the booking fallback 3, each with distinct ids and date "Upcoming"; only the booking records carry a prediction |
| GeminiService.FetchUpcomingMatches | services/geminiService.ts:60-81 | With an array of matches, there is one record per item, equal to it except that the id is `match-<index>-<now>`. Any failure or non-array yields exactly the 6-record fallback |
| GeminiService.ProcessBookingCode | services/geminiService.ts:118-136 | The same, with id `booking-<code>-<index>-<now>`; any failure yields the 3-record fallback |
| GeminiService.FetchedIdsDistinct | services/geminiService.ts:67-81 | Fetched fixtures have pairwise distinct ids |
| GeminiService.BookingIdsDistinct | services/geminiService.ts:125-136 | Booking fixtures have pairwise distinct ids |
| BetSlip.Remove | App.tsx:122-124 | Drops exactly the entries with the id, keeps the rest in order and with their multiplicities, and changes nothing when the id is absent |
| BetSlip.Toggle | App.tsx:112-120 | With the id present, it is Remove. Otherwise the selection, tagged with the current sport, is appended and the prefix is unchanged |
| BetSlip.Clear | App.tsx:126-128 | The slip becomes empty |
| BetSlip.ToggleOffRemovesAll | App.tsx:113-117 | Toggling a present id removes every entry with it, keeps all others, and shortens the slip |
| BetSlip.ToggleKeepsDistinct | App.tsx:112-120 | Toggle preserves pairwise distinct ids |
| BetSlip.RemoveKeepsDistinct | App.tsx:122-124 | Remove preserves pairwise distinct ids |
| BetSlip.ToggleTwiceRestores | App.tsx:112-120 | Toggling a selection twice on a slip without its id restores the slip |
| BetSlip.RemoveIdempotent | App.tsx:122-124 | Removing an id twice is removing it once |
| BetSlip.RemoveCommutes | App.tsx:122-124 | Removals of two ids commute |
| AppShell.StartLoad | App.tsx:44-45 | A load starts with status loading_matches and an empty list; slip, selection, sport and date are untouched |
| AppShell.FinishLoad | App.tsx:49-51 | A finished load keeps exactly the records dated the requested day, in order and with their multiplicities, and goes idle; slip and selection are untouched |
| AppShell.FailLoad | App.tsx:54 | A failed load goes idle with the `Failed to load <sport> matches.` text, keeping list and slip |
| AppShell.QueryString | App.tsx:94 | A non-empty manual query is sent as is; otherwise the fixture line `home vs away (league)` is sent |
| AppShell.QueryIsServiceSubject | App.tsx:94 | The text the application sends is the service's own description of the same subject: the manual query as a free query, or the fixture |
| AppShell.QueryExtendsTitle | App.tsx:94 | For a listed fixture the query is the analysis title followed by the league in parentheses |
| AppShell.StartAnalysis | App.tsx:90-92 | The status becomes analyzing with no analysis on screen; the message cursor restarts when analysis was not already running; slip, selection and fixtures are kept |
| AppShell.SelectMatch | App.tsx:71-74 | The fixture becomes the selection and its analysis starts; the slip is kept |
| AppShell.ResetView | App.tsx:106-110 | No selection, no analysis and status idle with no error; slip and fixtures are kept |
| AppShell.ManualMatch | App.tsx:78-85 | The manual fixture has id "manual", the input as home, no away team, league "Custom", and the current date and sport |
| AppShell.ManualInput | App.tsx:76-88 | Manual input selects the manual fixture, starts analyzing, and sends the input itself as the query |
| AppShell.FinishAnalysis | App.tsx:98-99 | A resolved analysis is shown with status complete, keeping slip and selection |
| AppShell.FailAnalysis | App.tsx:102 | A failed analysis sets status error with the fixed message |
| AppShell.Dismiss | App.tsx:179 | DISMISS returns to idle and keeps the selection, the analysis and the slip |
| AppShell.SetState | App.tsx:60-69 | Only the status changes; entering `analyzing` restarts the message cursor at 0 |
| AppShell.Tick | App.tsx:63-66 | While analyzing, the cursor advances by one modulo 6 and shows that message; otherwise nothing changes |
| AppShell.TicksCycle | App.tsx:64 | k ticks from a fresh interval leave the cursor at k mod 6 |
| AppShell.Step | App.tsx:42-128 | Every event keeps the cursor and message inside the six messages |
| AppShell.RunKeepsSlipDistinct | App.tsx:112-128 | Any sequence of events keeps the slip ids pairwise distinct |
| AppShell.FreshLoadShowsSelectedDate | App.tsx:49 | A load for the date on show leaves exactly the records dated that day, in their order and with their multiplicities |
| AppShell.LoadFailureShowsNoBanner | App.tsx:54 | A failed fixture load stores an error text but the status is idle, so no banner shows |
| AppShell.ResetHidesResult | App.tsx:106-110 | Reset hides the analysis view and the banner |
| AppShell.SelectThenDoneShowsResult | App.tsx:71-74 | Selecting a fixture and then seeing the analysis complete shows the view for that fixture |
| AppShell.StartKeepsMessage | App.tsx:90-92 | Starting an analysis restarts the rotation at 0 but keeps the message on screen |
| AppShell.OverlayOf | App.tsx:168-174 | The overlay shows exactly in the three busy statuses: the rotating message while analyzing, the code message while processing a code, and the sport's fixture message while loading fixtures |
| AppShell.MatchTitle | App.tsx:186 | A manual match's title is its text; a fixture's is `home vs away` |
| AppShell.DefaultDate | App.tsx:33-39 | `year-MM-DD`: the month and day read back from two zero-padded digits as month+1 and day |
| AppShell.DefaultDateShape | App.tsx:33-39 | For a four-digit year the date has 10 characters, dashes at 4 and 7, and the year reads back |
| AnalysisView.SelectionId | components/AnalysisResult.tsx:169 | The id contains no whitespace and no ASCII upper-case letter; when no part holds whitespace it is the lower-cased `title-market-selection` |
| AnalysisView.CollapseSpaces | components/AnalysisResult.tsx:169 | The result has no whitespace, and text without whitespace is unchanged |
| AnalysisView.CollapseAppend | components/AnalysisResult.tsx:169 | Text ending in a visible character is replaced independently of what follows it |
| AnalysisView.CollapseLeadingRun | components/AnalysisResult.tsx:169 | A leading whitespace run becomes a single '-' |
| AnalysisView.CollapseRun | components/AnalysisResult.tsx:169 | Each maximal whitespace run becomes exactly one '-', and the text on either side is replaced on its own |
| AnalysisView.SelectionIdRun | components/AnalysisResult.tsx:169 | A whitespace run in the selection gives the same id as a single '-' in its place |
| AnalysisView.CollapseLower | components/AnalysisResult.tsx:169 | Lower-casing commutes with collapsing whitespace runs |
| AnalysisView.SelectionIdIgnoresCase | components/AnalysisResult.tsx:169 | Selections equal up to ASCII case get the same id |
| AnalysisView.CreateSelection | components/AnalysisResult.tsx:168-174 | Title, market, selection and confidence are copied unchanged, no sport is set, and the id is the slug |
| AnalysisView.IsSelected | components/AnalysisResult.tsx:162-166 | Holds exactly when some entry of the slip has this title, market and selection, with no case or whitespace normalisation |
| AnalysisView.SelectedMeansIdPresent | components/AnalysisResult.tsx:162-169 | On a slip of created entries, a selected triple's id is on the slip |
| AnalysisView.UnselectedButIdPresent | components/AnalysisResult.tsx:162-169 | The converse fails: "A" and "a" are shown as different selections but share an id |
| AnalysisView.CreatedToggleRestores | components/AnalysisResult.tsx:168-174 | Toggling a created selection on and off restores the slip |
| AnalysisView.FirstSeparator | components/AnalysisResult.tsx:177 | The leftmost match of the separator regex at or after a position, or none |
| AnalysisView.TeamNames | components/AnalysisResult.tsx:176-180 | Home is the text before the first separator; away is the text between the first and the second separator, or to the end when there is no second one; with no separator the result is `[title, ""]` |
| AnalysisView.TeamNamesRoundTrip | components/AnalysisResult.tsx:176-180 | `home vs away` splits back into exactly home and away if and only if no separator starts inside home, away does not open with whitespace, and no separator starts in away |
| AnalysisView.SplitsCleanlyRoundTrip | components/AnalysisResult.tsx:176-180 | Under that condition the split gives back home and away |
| AnalysisView.RoundTripSplitsCleanly | components/AnalysisResult.tsx:176-180 | A split that gives back home and away implies that condition |
| AnalysisView.SeparatorAtShift | components/AnalysisResult.tsx:177 | A separator match depends only on the text from its start onwards |
| AnalysisView.PlainNamesSplitCleanly | components/AnalysisResult.tsx:177 | Names without edge whitespace, and with no whitespace followed by 'v', 'V' or '-', meet that condition |
| AnalysisView.FixtureTitleSplitsBack | components/AnalysisResult.tsx:176-182 | The title App.tsx builds for a listed fixture splits back into its teams if and only if the same condition holds |
| AnalysisView.TeamNamesWithoutSeparator | components/AnalysisResult.tsx:179 | Without a separator the whole title is home and away is "" |
| AnalysisView.ConfidenceBadge | components/AnalysisResult.tsx:66-79 | The three levels get their own tone; any other text gets the Medium tone; the raw text is always shown |
| TeamBadge.ColourIndex | components/AnalysisResult.tsx:30-46 | The colour index is below 8, and 0 for the empty name |
| TeamBadge.TeamColourIndex | components/MatchSelector.tsx:12-28 | The loop as written computes ColourIndex |
| TeamBadge.HashIs31Hash | components/BookingCodeSection.tsx:23-26 | Modulo 2^32 the hash is the classic `31*h + c` string hash |
| TeamBadge.BmpUnits | components/AnalysisResult.tsx:42-43 | Characters below U+10000 are one code unit each, read as their code point |
| TeamBadge.SingleLetter | components/AnalysisResult.tsx:41-45 | "A" gets colour 1 |
| TeamBadge.HeadsOfSplitAreWordStarts | components/AnalysisResult.tsx:60 | Heads of `split(' ')` pieces, skipping empty ones, are the first characters of the space-separated words |
| TeamBadge.Initials | components/AnalysisResult.tsx:60 | Initials are the first two word starts, upper-cased: at most 2 characters, no space |
| TeamBadge.InitialsOfTwoWords | components/AnalysisResult.tsx:60 | Two words give their two first letters, upper-cased |
| BetBuilder.EntryToneAgainstBadge | components/BetBuilder.tsx:61-63 | On the three levels the row colour agrees with the badge. On any other text the row is red while the badge is amber |
| BetBuilder.EntryTone | components/BetBuilder.tsx:70-72 | Emerald exactly for "High", amber exactly for "Medium" |
| BetBuilder.CountLabelReadsBack | components/BetBuilder.tsx:42 | The label starts with the count in decimal up to the first space, and ends in 's' exactly when the count is not 1 |
| BetBuilder.CountLabel | components/BetBuilder.tsx:42 | The label is longer than the decimal count it starts with |
| BetBuilder.Render | components/BetBuilder.tsx:15 | Nothing is rendered exactly for an empty slip; otherwise one row per entry, in order |
| BetBuilder.RemoveControlRemovesItsRow | components/BetBuilder.tsx:55 | On a slip with distinct ids, a row's remove control removes exactly that row's entry |
| BetBuilder.CopyText | components/BetBuilder.tsx:18-20 | A single entry's copy text is its own `title\nmarket: selection (confidence)` block, with no separator |
| BetBuilder.CopyTextAppend | components/BetBuilder.tsx:18-20 | A further entry adds a blank line and its `title\nmarket: selection (confidence)` |
| BetBuilder.ParseLineRoundTrip | components/BetBuilder.tsx:19 | `market: selection (confidence)` reads back into its three fields |
| BetBuilder.CopyTextRoundTrip | components/BetBuilder.tsx:18-20 | When no field holds a line break, no market holds ':' and no confidence holds '(', the copy text reads back into each entry's four fields in slip order |
| MatchSelector.Filtered | components/MatchSelector.tsx:51-53 | The result is an order-preserving subsequence holding exactly the fixtures whose lower-cased `home away league` contains the lower-cased query, each as often as in the input |
| MatchSelector.EmptyQueryKeepsAll | components/MatchSelector.tsx:51-53 | The empty query keeps every fixture |
| MatchSelector.FilterTwiceIsOnce | components/MatchSelector.tsx:51-53 | Filtering twice with one query is filtering once |
| MatchSelector.LongerQueryNarrows | components/MatchSelector.tsx:51-53 | If q1 is a substring of q2, the fixtures q2 keeps are a subsequence of those q1 keeps |
| MatchSelector.ManualSubmit | components/MatchSelector.tsx:55-60 | Submits exactly when the input is not all whitespace, and passes the untrimmed input |
| MatchSelector.SubmitDisabled | components/MatchSelector.tsx:86 | The button is disabled exactly while loading or when the input is all whitespace |
| MatchSelector.SubmitKeepsSpaces | components/MatchSelector.tsx:58 | Surrounding whitespace is passed on |
| MatchSelector.ReplaceFirstDash | components/MatchSelector.tsx:136 | Only the first '-' becomes '/' |
| MatchSelector.DateLabelOfIsoDate | components/MatchSelector.tsx:136 | `YYYY-MM-DD` is shown as `MM/DD` |
| MatchSelector.DefaultDateLabel | components/MatchSelector.tsx:136 | The app's default date is shown as its month and day |
| MatchSelector.ShowGrid | components/MatchSelector.tsx:114 | The skeleton shows exactly while loading with no fixtures; otherwise the filtered cards show |
| BookingCode.TypeCode | components/BookingCodeSection.tsx:87 | The stored code has no lower-case ASCII letter, and it equals the input up to ASCII case; an input without lower-case letters is stored as is |
| BookingCode.RetypingIsStable | components/BookingCodeSection.tsx:87 | Typing the shown code again changes nothing |
| BookingCode.StartLoad | components/BookingCodeSection.tsx:43-50 | A blank code changes nothing. Otherwise the status becomes processing_code and the list is cleared and hidden |
| BookingCode.SubmitDisabled | components/BookingCodeSection.tsx:93 | The button is disabled exactly while loading or when the code is all whitespace |
| BookingCode.FinishLoad | components/BookingCodeSection.tsx:52-59 | Success shows the returned list with status idle; a thrown error sets status error with the fixed message |
| BookingCode.LoadCode | components/BookingCodeSection.tsx:43-60 | The handler runs exactly when the code is not blank |
| BookingCode.LoadNeverErrors | components/BookingCodeSection.tsx:52-58 | Because `processBookingCode` never throws, a load always ends idle, showing the service's list with distinct ids |
| BookingCode.FailedRequestListsFallback | components/BookingCodeSection.tsx:52-55 | A failed request lists exactly the three fixed booking fixtures |
| BookingCode.ShowList | components/BookingCodeSection.tsx:104 | The list is shown exactly after a finished search, with the loaded fixtures |
| BookingCode.HeaderCountsCards | components/BookingCodeSection.tsx:110 | The header starts with the number of listed fixtures in decimal |
| BookingCode.PredictionLine | components/BookingCodeSection.tsx:142 | The slip line shows exactly for a present, non-empty prediction |
| BookingCode.FallbackShowsPredictions | components/BookingCodeSection.tsx:142 | Each fallback fixture shows its slip line |

## Left out

- The `GoogleGenAI` client, the API key and all network traffic: each call is an abstract outcome.
- The prompt templates: they are string literals with nothing to prove.
- `JSON.parse`: it is uninterpreted. The `{...json, sources}` spread keeps the parsed value as an opaque `J` beside the sources.
- `data.matches` on a parsed value: it is read through the `parse` parameter, so a non-object, or a `matches` that is not an array, appears as `NotAList`.
- `Date.now()`, `new Date()`, `setInterval`, `setTimeout` and the clipboard write: time is a parameter, the timers become `Ticked` events, and the clipboard receives `CopyText`.
- Rendering: JSX, CSS classes, icons and components/LoadingOverlay.tsx. Only what decides visible content is modelled (overlay choice, banner, grids, labels, colour tones).
- Async races between overlapping fetches or analyses: events are applied in the order they arrive. A late answer for a date no longer on show is outside the model's claims.
- Unicode case mapping: `toLowerCase` and `toUpperCase` change ASCII letters only.
- The call-site mismatches in App.tsx: `fetchMatches(sport, date)` is not exported by the service, and `analyzeMatchDeeply` is passed a second argument. Each side is modelled against its own code. The fixture load is an event carrying the records.
- Props that components receive but do not declare: not modelled.
- `ConfidenceBadge`'s `styles[level]` lookup also finds inherited object properties (for example `toString`). The model treats every text other than the three levels as unknown.
- Errors thrown as non-objects, and `status` / `code` fields that are not numbers: the retry rule sees only optional integers.
- TeamBadge.ColourIndex: the hash is exact on unbounded integers. The JavaScript number holding it stays exact only while its magnitude is below 2^53. Each step can add at most about 2^32 plus one code unit, so this covers names shorter than roughly 2^21 code units.
- TeamBadge.Initials: works on Unicode scalars, while `n[0]` reads a UTF-16 code unit. A word starting with a character above U+FFFF gives its first surrogate in the source but the whole character here.
- TeamBadge.TeamColourIndex: the three `getTeamColor` copies (components/AnalysisResult.tsx:30-46, components/MatchSelector.tsx:12-28, components/BookingCodeSection.tsx:12-28) are textually identical, including the eight colours, so one model stands for all three; the same holds for the initials.
- BetBuilder.CopyTextRoundTrip: holds only for fields that avoid the format's delimiters. With a line break in a field, or a ':' in a market, the copy text is ambiguous.
- BetBuilder.ParseLineRoundTrip: holds only when the market holds no ':', the confidence no '(' and no field a line break. The market ends at the first ':' and the confidence starts after the last '(', so other lines read back differently.
