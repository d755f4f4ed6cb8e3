# Weather-Aware Journal — a Dafny model of its entry logic

The Weather-Aware Journal is a browser app. Users write journal entries with a
title, a date, a mood, content, tags, a card background and the weather at the
time. Entries live in the browser's storage as one JSON array. This project models the
logic around that array and proves what it guarantees:

- **Dashboard view model** (`entries.js`). The session state: search term, sort
  order, today-only filter, current page, and a one-entry undo slot. Event
  handlers reassign that state. What the dashboard shows is derived from the
  stored entries by a pure pipeline: search, date filter, sort by date, pages of
  five. Also modelled: delete with single-shot undo, the page buttons, and the
  mood tally.
- **Id back-filling** (`ensureIDs`, in all three dashboards). Every entry gets a
  truthy id, and the collection is saved only if one was missing.
- **New-entry form** (`js/form.js` and the older `script.js`). The required-field
  checks and their ordered error list, the error summary line, tag parsing,
  assembly of the new entry with weather defaults, and the append.
- **Weather** (`js/weather.js`). The WMO weather-code labels, the label icons, and
  the record `fetchWeatherForCity` builds from the geocoding and forecast
  answers.
- **Older dashboard** (`js/entries.js`, `script.js`). Newest-first rendering of a
  copy, delete by filtering, and the card classes.
- **Card date** (`utils.js`, copied in `script.js`). `formatDateForCard`.

## How the model is built

Modules follow the program's concerns:

| module | file | what it holds |
|---|---|---|
| `Text` | text.dfy | lower-casing, `includes`, `trim`, `split`, `join`, `padStart`, number text |
| `Seqs` | seqs.dfy | `filter` and subsequences |
| `Journal` | journal.dfy | the entry record, ids, parsed dates |
| `Store` | store.dfy | `loadEntries`, `saveEntries` and `ensureIDs` |
| `Repo` | repo.dfy | delete by id, `find`, undo |
| `Query` | query.dfy | the dashboard's query pipeline |
| `Moods` | moods.dfy | the mood tally |
| `Dates` | dates.dfy | `formatDateForCard` |
| `Dashboard` | dashboard.dfy | the dashboard session |
| `Weather` | weather.dfy | weather codes and icons, and the fetched record |
| `Form` | form.dfy | the new-entry form |
| `Legacy` | legacy.dfy | the older dashboard and the card classes |

The source changes state in four places. The first three are classes whose
methods carry `modifies` clauses; the fourth is a set of methods with loops or
successive pushes:

- **Storage slot.** `Store.EntryStore` has the collection as a `seq` field. Its
  `writes` counter records every `saveEntries` call, so "saves" and "does not
  save" can be told apart.
- **Dashboard's module variables.** These are the fields of `Dashboard.Session`.
- **Weather module's `lastWeather`.** This is `Weather.WeatherBox`.
- **The `ensureIDs` loop, the form's `push` calls and the page-button loop.**
  These are methods with loops or successive assignments. Each is proved
  against a function that states the result.

Whatever the code cannot pin down is a parameter:

| source | model |
|---|---|
| `new Date(s)` | `parse: string -> ParsedDate` (`Invalid`, or calendar day plus timestamp) |
| today's date | a `CalendarDate` |
| `Date.now() + Math.random()` | an id oracle whose values are truthy (`FreshId`) |
| `JSON.parse` / `JSON.stringify` | functions passed in |
| the two `fetch` lookups | `geocode` and `forecast` |

`Array.prototype.sort` is modelled as a stable insertion sort driven by the
source's own comparator.

Two behaviours differ from what a reader might assume. The model follows the
code:

- The number of pages is `ceil(n / 5)`, which is 0 when nothing matches
  (`entries.js:275`).
- Only a new search sends the dashboard back to page 1. A sort change and a
  calendar toggle both keep the current page (`entries.js:58-59`,
  `entries.js:68`, `entries.js:75`). A sort change only reorders the results,
  so the page count stays the same. A calendar toggle or a delete can shrink
  the results, and then the page may be past the last one and show nothing.

## Model

| member | source | states |
|---|---|---|
| Text.Lower | entries.js:15-17 | `toLowerCase` keeps the length and maps each character on its own (ASCII capitals to small letters) |
| Text.LowerIdempotent | entries.js:15-17 | lower-casing twice is lower-casing once |
| Text.NotContainsMissingChar | js/weather.js:21-30 | `includes` is false when the needle has a character the text lacks |
| Text.ContainsPrefix | js/weather.js:21-30 | a text includes each of its prefixes |
| Text.ContainsEmpty | entries.js:257 | every text includes the empty string |
| Text.Trim | js/form.js:16 | the trimmed text has neither leading nor trailing white space and is no longer than the input |
| Text.TrimIsSlice | js/form.js:16 | trimming only drops white space at the two ends: the result is the slice between them |
| Text.TrimStart | js/form.js:16 | the trimmed text sits at a position of the input with only white space before and after it |
| Text.TrimKeepsChars | js/form.js:40 | trimming adds no character (a trimmed piece of a split never contains the separator) |
| Text.TrimUnchanged | js/form.js:40 | text with no white space at either end is left as it is |
| Text.TrimIdempotent | js/form.js:40 | trimming twice is trimming once |
| Text.Split | js/form.js:40 | `split(',')` gives at least one piece, and no piece contains the separator |
| Text.JoinSplit | js/form.js:40 | joining the pieces of a split with the separator gives the text back |
| Text.SplitJoin | js/form.js:40 | splitting text joined from separator-free pieces gives the pieces back |
| Text.Join | js/form.js:89 | `join` of no parts is `''`, and otherwise the text starts with the first part |
| Text.JoinContainsParts | entries.js:256 | every part occurs in the joined text |
| Text.NatToString | utils.js:10 | `toString` of a non-negative integer is a non-empty string of decimal digits |
| Text.NatToStringRoundTrip | utils.js:10 | the digits read back as the number |
| Text.NatToStringNoLeadingZero | utils.js:10 | the text starts with `0` only for the number zero |
| Text.NatToStringInjective | utils.js:10 | different numbers have different texts |
| Text.IntToString | utils.js:13-15 | an integer's text starts with `-` exactly when it is negative, and the rest is decimal digits with no leading zero (other than `0` itself) that read back as its magnitude |
| Text.IntToStringInjective | utils.js:13-15 | different integers have different texts |
| Text.PadStart | utils.js:10 | `padStart(w, f)` reaches width `w` only by putting `f` in front of the unchanged text |
| Seqs.Filter | entries.js:255-258 | `filter` keeps exactly the elements satisfying the predicate, each as often as before, and is never longer |
| Seqs.FilterIsSubseq | entries.js:255-258 | a filter's result is a subsequence of its input |
| Seqs.FilterAll | js/entries.js:54 | a filter that every element passes changes nothing |
| Store.WithIds | entries.js:31-45 | after back-filling, every entry has a truthy id; entries that had one are unchanged; any other entry only gets the next id; length and order are kept |
| Store.WithIdsIdempotent | entries.js:42-44 | a second back-fill changes nothing, whatever ids the source would hand out |
| Store.WithIdsNoop | js/entries.js:17-19 | a collection whose ids are all present is left as it is |
| Store.EntryStore.Save | script.js:14-16 | `saveEntries` replaces the stored collection and counts as one write |
| Store.EntryStore.EnsureIds | entries.js:31-45 | the `forEach` loop leaves the back-filled collection; it saves once exactly when an id was missing and otherwise does not write (the same code is at js/entries.js:6-20 and script.js:30-40) |
| Store.LoadEntries | script.js:3-12 | missing or empty text, unparsable text and a non-array value all load as `[]`; a parsed array loads as itself |
| Store.SaveLoadRoundTrip | script.js:3-16 | loading what was saved gives it back, for a parser that inverts the printer |
| Repo.RemoveId | entries.js:170 | delete keeps exactly the entries with another id, each as often as before |
| Repo.RemoveIdKeepsOrder | entries.js:170 | the survivors keep their relative order |
| Repo.RemoveAbsentId | js/entries.js:52-56 | deleting an id no entry has changes nothing |
| Repo.FindId | entries.js:169 | `find` gives nothing exactly when no entry has the id, and otherwise an entry of the collection with that id |
| Repo.FindIdIsFirst | entries.js:169 | `find` gives the first entry with the id |
| Repo.DeleteThenUndo | entries.js:167-175 | with a unique id, removing it and appending the remembered entry restores the same multiset of entries |
| Query.Normalize | entries.js:15-17 | a missing value becomes `''`; otherwise each character is the input's character lower-cased, so the length is kept and no capital is left |
| Query.NormalizeIdempotent | entries.js:15-17 | normalizing twice is normalizing once |
| Query.Haystack | entries.js:256 | title, content, mood and every tag each occur in the searched text |
| Query.EmptyTermMatchesAll | entries.js:254-257 | every entry matches the empty term, so the `if (searchTerm)` guard changes no result |
| Query.Search | entries.js:254-259 | an empty term keeps every entry; any other term keeps exactly the entries whose lower-cased `title content mood tags…` includes it, each kept entry as often as it is stored |
| Query.SearchIsSubseq | entries.js:254-259 | search results are a subsequence of the collection |
| Query.IsSameDay | entries.js:19-28 | an empty or unparsable date is never today; otherwise year, month and day must all agree |
| Query.FilterByDate | entries.js:262-265 | `all` keeps everything; `today` keeps exactly the entries dated today, each as often as before, and never an empty or unparsable date |
| Query.Compare | entries.js:268-273 | the comparator is 0 when either date is invalid |
| Query.CompareSign | entries.js:268-273 | between valid dates the comparator is at most 0 exactly when the first may stand before the second in the chosen order, and it is antisymmetric |
| Query.Insert | entries.js:268-273 | one insertion step adds the entry once and keeps everything else |
| Query.InsertOrdered | entries.js:268-273 | with valid dates, inserting into a date-ordered list keeps it ordered |
| Query.SortByDate | entries.js:268-273 | the sorted copy is a permutation of its input; when every date parses it is newest-first or oldest-first as asked |
| Query.TotalPages | entries.js:275 | `ceil(n/5)`: the fewest pages of five that hold `n` entries, 0 for none |
| Query.Page | entries.js:276 | page `p` holds positions `(p-1)*5` onward, `min(5, n-(p-1)*5)` of them, none past the last page; it is empty exactly when `p` is past the last page, and full before the last page |
| Query.PagesUpToIsPrefix | entries.js:276 | pages 1 to `n` together are the first `5n` results |
| Query.PaginationCovers | entries.js:275-276 | pages 1 to `totalPages` together are the whole result list, in order |
| Query.Results | entries.js:251-273 | the sorted results are a permutation of the searched and filtered entries |
| Query.Render | entries.js:246-276 | the visible entries are exactly the results at positions `(page-1)*5` onward, at most five, in the sorted order; each is a stored entry matching the search and the date filter; the page count is `ceil(results/5)`, 0 exactly when nothing matches, and the page is empty exactly when it is past the last |
| Query.ResultsFrom | entries.js:251-273 | every result is a stored entry that passed the search and the date filter |
| Query.SearchNarrows | entries.js:254-259 | a search never shows an entry more often than the empty search |
| Dates.DayText | utils.js:10 | the day is exactly two digits that read back as the day of the month |
| Dates.FormatDateForCard | utils.js:3-16 | an empty input gives `''`; an unparsable one comes back unchanged; a valid date gives the two-digit day, a space, the month's name from the 12-entry table, a space and the year (the copy is at script.js:18-27) |
| Dates.FormatKeepsCalendarDate | utils.js:10-15 | two valid dates that format alike fall on the same day, month and year |
| Dates.MonthNameLength | utils.js:11 | every month name has three letters |
| Dates.MonthNamesDistinct | utils.js:11 | no two months share a name |
| Moods.MoodKey | entries.js:134 | the key is the entry's mood, or `Unknown` for an empty one |
| Moods.Bump | entries.js:135 | counting one more entry adds at most one line; a new mood gets the line `mood: 1` at the end |
| Moods.BumpKeys | entries.js:135 | counting one more entry lists its key once, last if it is new |
| Moods.BumpCountOf | entries.js:135 | counting one more entry raises that key's count by one and no other count |
| Moods.BumpTotal | entries.js:135 | counting one more entry raises the total by one |
| Moods.BumpDistinct | entries.js:135 | counting keeps every key listed once |
| Moods.BumpPositive | entries.js:135 | counting keeps every count at least 1 |
| Moods.ListedIffCounted | entries.js:139-143 | with positive counts, a mood is listed exactly when its count is positive |
| Moods.Tally | entries.js:133-137 | the `reduce` lists each key once with a count of at least 1; each count is that key's number of entries; the counts sum to the number of entries |
| Moods.TallyListsEveryMood | entries.js:139-143 | a mood is listed exactly when some entry has it |
| Moods.CountOfListed | entries.js:139-141 | each listed line carries its mood's count |
| Moods.KeysAt | entries.js:139 | every line's mood is among the listed keys |
| Moods.MoodSummary | entries.js:93-97 | there is no summary exactly when there are no entries; otherwise the counts sum to the number of entries |
| Dashboard.SortOrderFor | entries.js:67-68 | `oldest` exactly when the lower-cased value includes `oldest`, else `newest` |
| Dashboard.Toggled | entries.js:75 | the calendar toggle always changes the mode |
| Dashboard.ToggleTwice | entries.js:75 | toggling twice restores the mode |
| Dashboard.Session.constructor | entries.js:6-12 | the initial state: no term, newest first, all dates, page 1, empty undo slot |
| Dashboard.Session.CurrentView | entries.js:246-276 | the current view shows exactly the results of the session's search, filter and order at positions `(page-1)*5` onward, at most five, all stored entries; the page count is `ceil(results/5)`; nothing is shown exactly when the page is past the last |
| Dashboard.Session.OnSearchInput | entries.js:55-62 | a search sets the term to the input lower-cased character by character and the page to 1, and leaves the rest of the state |
| Dashboard.Session.OnSortChange | entries.js:65-71 | a sort change sets the order from the value and leaves the page and the rest |
| Dashboard.Session.OnCalendarClick | entries.js:73-79 | the calendar flips the mode and leaves the page and the rest |
| Dashboard.Session.RenderPagination | entries.js:342-361 | the `for` loop makes buttons 1 to `totalPages` in order, only the current page's disabled |
| Dashboard.Session.OnPageButton | entries.js:356-359 | a page button sets the current page to its number, at least 1, and leaves the rest |
| Dashboard.Session.DeleteEntry | entries.js:167-175 | the undo slot becomes the first entry with the id, or empty; every entry with the id is removed; the rest is saved once; the view state is kept |
| Dashboard.Session.Undo | entries.js:212-221 | with a remembered entry, it is appended and saved and the slot is cleared; with an empty slot nothing changes |
| Dashboard.Session.MoodPanel | entries.js:92-97 | no panel exactly when the store is empty; otherwise the counts sum to the number of stored entries |
| Dashboard.DeleteThenUndoRestores | entries.js:212-221 | deleting an entry with a unique id and then pressing undo leaves the same multiset of stored entries and an empty slot |
| Weather.MapWeatherCodeToType | js/weather.js:10-19 | every code gets one of the eight labels |
| Weather.WeatherCodeRanges | js/weather.js:11-18 | each label stands for exactly its code range: 0, 1–3, 45/48, 51–57, 61–67 and 80–82, 71–77, 95 and up, and everything else `Unknown` |
| Weather.IconForType | js/weather.js:21-30 | every label, or none, gets one of the six icons |
| Weather.IconOfWeatherCode | js/weather.js:67-68 | a code's label gets its icon: sun, cloud, rain for drizzle and rain, snow, storm, fog, and the cloud for `Unknown` |
| Weather.IconOfClearSky | js/weather.js:23 | `Clear sky` gets the sun |
| Weather.IconOfClouds | js/weather.js:24 | `Clouds` gets the cloud |
| Weather.IconOfDrizzle | js/weather.js:25 | `Drizzle` gets the rain icon |
| Weather.IconOfRain | js/weather.js:25 | `Rain` gets the rain icon |
| Weather.IconOfSnow | js/weather.js:26 | `Snow` gets the snowflake |
| Weather.IconOfThunderstorm | js/weather.js:27 | `Thunderstorm` gets the storm icon |
| Weather.IconOfFog | js/weather.js:28 | `Fog` gets the fog icon |
| Weather.IconOfUnknown | js/weather.js:29 | `Unknown` matches no keyword and gets the cloud |
| Weather.TemperatureText | js/weather.js:72 | the temperature reads as the integer's text followed by `°C` |
| Weather.TemperatureTextInjective | js/weather.js:72 | different temperatures read differently |
| Weather.LocationName | js/weather.js:76 | `name, country` when both are present, else the name, else the trimmed city |
| Weather.LocationNameShape | js/weather.js:76 | the location name starts with the place's name and is never empty for a non-empty city |
| Weather.Assemble | js/weather.js:67-77 | the record's label comes from the weather code and its icon from the label; its temperature is the rounded temperature; humidity and wind speed are copied; the location name follows the rule above |
| Weather.FetchWeatherForCity | js/weather.js:32-80 | a blank city fails with "City name is required"; a failed geocoding with "Could not look up that location"; no place with "No matching location found"; for the first place, a failed forecast with "Failed to fetch weather", a forecast without `current` with "No current weather data available", and otherwise the record assembled from that place and block, which has one of the labels, one of the icons and no empty text field |
| Weather.BlankCityNeedsNoLookup | js/weather.js:33-36 | a blank city is refused whatever the lookups would answer |
| Weather.ForecastOnlyForFirstPlace | js/weather.js:48-55 | only the forecast for the first place found matters |
| Weather.WeatherBox.Fetch | js/weather.js:70-79 | a success becomes the last fetched weather; a failure leaves the last fetched weather as it was; the slot only ever holds a complete record |
| Weather.WeatherBox.LastFetchedWeather | js/weather.js:120-122 | `getLastFetchedWeather()` gives nothing, or a complete record with a known label and icon |
| Form.ErrorIf | js/form.js:26-29 | a field gives one error with its message exactly when it is missing |
| Form.ErrorsFor | js/form.js:25-29 | every error names a missing field and carries that field's message |
| Form.ErrorsForCovers | js/form.js:25-29 | every missing field is reported |
| Form.ErrorsForFromFields | js/form.js:25-29 | only checked fields are reported |
| Form.Errors | js/form.js:25-29 | at most four errors, each naming a missing field with that field's message |
| Form.ErrorsExactlyMissing | js/form.js:25-29 | a field is reported exactly when it is missing (a blank trimmed title or content, or an empty date or mood), with its own message |
| Form.ErrorsForInOrder | js/form.js:25-29 | errors come in the order the fields are checked |
| Form.ErrorsInFormOrder | js/form.js:25-29 | errors follow title, date, mood, content, so no field is reported twice |
| Form.NoErrorsIffComplete | js/form.js:31-37 | there are no errors exactly when every required field is filled in |
| Form.Complete | js/form.js:26-29 | a form is complete exactly when no required field is missing |
| Form.CollectErrors | js/form.js:25-29 | the four successive `push` calls build exactly that error list |
| Form.Messages | js/form.js:89 | the messages of the errors, in order |
| Form.ErrorSummary | js/form.js:89-90 | the summary is exactly `Form has `, the count in decimal, ` error`, an `s` exactly when the count exceeds 1, `: ` and the messages joined with `. `, with nothing else in between |
| Form.SummaryOfOne | js/form.js:90 | one error gives `Form has 1 error: ` and its message |
| Form.TrimAll | js/form.js:40 | `.map(t => t.trim())`: a new list with each piece trimmed, one for one |
| Form.ParseTags | js/form.js:40 | every tag is non-empty, has no surrounding white space and no comma; each non-empty trimmed piece appears as a tag exactly as often as it appears among the pieces, and (with Form.ParseTagsKeepsOrder) in the same order |
| Form.TrimmedPieces | js/form.js:40 | trimmed pieces are trimmed and still comma-free |
| Form.ParseTagsKeepsOrder | js/form.js:40 | the tags keep the order of their pieces |
| Form.ParseJoinedTags | js/form.js:40 | tags written out with commas parse back to the same tags |
| Form.TrimAllTrimmed | js/form.js:40 | trimming already-trimmed pieces changes nothing |
| Form.NewEntry | js/form.js:42-62 | the new entry has the trimmed title and content and the parsed tags; a supplied record's icon, temperature and label are used when non-empty, otherwise (or with no record) the cloud, `26°C` and `Clouds`; humidity and wind speed only come from a record; the location comes from the record, else the trimmed input, else `''` |
| Form.FetchedWeatherIsKept | js/form.js:56-61 | a successfully fetched record is stored as fetched, with no field falling back to a default |
| Form.LegacyNewEntry | script.js:117-129 | the older form's entry has the fixed cloud/`26°C`/`Clouds` weather and no humidity, wind or location |
| Form.LegacyIsNewWithoutWeather | script.js:115-129 | the older form builds what the newer one builds with no weather fetched and no location field |
| Form.Submit | js/form.js:9-64 | with errors, nothing is saved; otherwise exactly the new entry is appended at the end, earlier entries are untouched, and one write happens |
| Form.SubmitLegacy | script.js:100-132 | an incomplete form is refused and nothing is saved; a complete one appends the legacy entry at the end with one write |
| Legacy.LegacyCardClass | js/entries.js:46 | the class is `card peach` exactly for the peach background, else `card` (the copy is at script.js:62) |
| Legacy.CardClass | entries.js:291-295 | peach, light-blue and dark backgrounds each add their own class; any other is a plain `card` |
| Legacy.CardClassesAgree | entries.js:291-295 | both dashboards give the same class except for light-blue and dark |
| Legacy.NewestFirst | js/entries.js:42 | the comparator is 0 when a date is invalid (NaN), and its sign puts the later date first |
| Legacy.NewestFirstIsCompare | js/entries.js:42 | the older comparator equals the newer dashboard's newest-first comparator |
| Legacy.RenderEntries | js/entries.js:39-43 | the cards are a permutation of the stored entries, newest first when every date parses, and none for an empty store; the store is not reordered (the copy is at script.js:57-59) |
| Legacy.DeleteCard | js/entries.js:52-56 | the entries with a different id are saved, one write even when nothing matched (the copy is at script.js:67-72) |

## Left out

- **DOM and accessibility.** Cards, toasts, panels, pagination buttons as
  elements, `aria-*` attributes, focus traps, live-region announcements,
  `alert` and navigation are not modelled. Only the data they are given is.
  js/a11y.js and js/main.js are not part of this model.
- **Debounce timer.** The 300 ms search timer is gone. A search is one atomic
  event (`Dashboard.Session.OnSearchInput`).
- **Network and `async`.** The two `fetch` calls are the `geocode` and
  `forecast` oracles. `renderWeatherInBox`, `initWeatherBox` and the status
  messages are display only.
- **Storage and JSON.** `localStorage` and `JSON.parse`/`JSON.stringify` are the
  `EntryStore` field and parser and printer parameters. js/storage.js is not
  part of this model.
- **Dates and time zones.** `new Date`, local-time day extraction and
  `Date.now()` come from the `parse` oracle and a given today.
- Store.EntryStore.EnsureIds: ids are unbounded integers from an oracle. The
  float arithmetic of `Date.now() + Math.random()` and a NaN id (which `!==`
  never matches) are not modelled. Uniqueness is not claimed, because the code
  does not ensure it.
- Query.SortByDate: the browser's sort algorithm is taken to be a stable
  insertion sort. Order is proved only when every date parses. The comparator
  returns 0 for an invalid date, which is not a consistent order, so the
  engine's result is then unspecified. Permutation holds for every input.
- Text.Lower: only ASCII capitals are lower-cased. Full Unicode case mapping
  (for example of accented letters) is not modelled.
- Weather.FetchWeatherForCity: the temperature arrives already rounded
  (`Math.round` on a float is not modelled). The weather code is an integer;
  a non-numeric or fractional code is not modelled. Humidity and wind speed
  are `None` when they are not numbers.
- Moods.Tally: keys are listed in first-insertion order. JavaScript lists
  integer-like object keys (a mood such as `"1"`) first, in numeric order; that
  reordering is not modelled.
- Moods.Tally: the tally object is a plain `{}`, so a mood named after an
  `Object.prototype` member behaves differently in the source. For
  `"__proto__"` the number assignment is ignored and the mood is never listed.
  For `"constructor"`, `"toString"` and the other inherited names, `acc[key] || 0`
  finds the inherited function and the count becomes a string. The model
  counts these moods like any other. Moods.MoodSummary's "counts sum to the
  number of entries" holds only when no mood has such a name.
- Query.Normalize: `(str || '').toString()` of a non-string value is not
  modelled. Values are strings or missing.
- **Entry fields of other types.** A non-string title, a `tags` value that is
  not an array, and similar are outside the model. Absent text fields are the
  empty string and absent tags the empty list.
