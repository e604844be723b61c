# AppScraper core: range resolution, price-history build, quote lookup

AppScraper is a small Swing program. It shows a stock's current quote and a
chart of its recent daily closing prices, both taken from the Alpha Vantage
market-data API. This project models the part of `AppScraper.java` that has
real logic, and proves properties about it:

- **Range resolution** (`calculateFromDate`). The chart's combo-box label is
  turned into the first day the chart may show. The label may be null.
  "Today" is a parameter here rather than a clock read. The date arithmetic
  follows `java.time.LocalDate` in the proleptic Gregorian calendar:
  - `minusDays` gives the date whose serial day number is n lower; its
    results agree with `LocalDate`'s, borrowing from the month and the year
    when needed.
  - `minusMonths` moves the month count back and clamps the day to the last
    day of the target month.
- **History build** (`fetchHistoricalPrices` once the response has been
  decoded). The method reads the `"Time Series (Daily)"` object and walks
  its entry set: one entry per key, standing where the key first appears
  and holding the key's last value, as Gson's `JsonObject` keeps it. It
  parses each key with the pattern `yyyy-MM-dd` and reads each `"4. close"`
  value. It puts every point into a date-ordered map, where a later put of
  the same date replaces the earlier one. It then adds the map's entries
  dated on or after the range's first day to the chart series, in ascending
  order. A malformed entry fails the whole call before the series exists.
  A kept date whose year JFreeChart's `Day` cannot hold (outside 1900..9999)
  fails the call while the series is being built.
- **Quote lookup** (the decoded part of `fetchData`). A missing or empty
  `"Global Quote"` object means "not found". Otherwise `"05. price"` and
  `"10. change percent"` are read as strings and passed on unchanged.

Modules: `Results` (Option, Result), `Calendar` (dates, leap years, serial
day numbers, `MinusDays`, `MinusMonths`), `RangeResolver`, `Json` (the
decoded JSON tree and the Gson accessors the code calls), `DateParsing`
(`yyyy-MM-dd` in both directions), `PriceMap` (the `TreeMap` seen as its
ascending listing), `PriceHistory` and `Quote`.

The imperative part keeps its form. `PriceHistory.FetchHistoricalPrices`
delegates to two methods, one for each loop in the source:
- `PutEntries` puts each decoded entry into the listing.
- `SeriesFrom` skips entries before `fromDate` with `continue` and appends
  the rest.

Each method is proved equal to a specification function (`DataMap`,
`FilterFrom`, `History`). The lemmas beside those functions state what the
source promises. `TreeMap.put` is the function `PriceMap.Insert` on a
strictly ascending sequence. It is proved to agree with `PutAll`, which
performs the same puts on a plain map.

Behaviours of the code that a reader might not expect, and that the model
keeps:
- The range is a string label that may be null, not an enumeration.
- A key such as `2023-02-30` is not a parse error. Java's SMART resolver
  clamps it to `2023-02-28`, so two keys can name the same date, and then the
  one later in the entry set wins in the map.
- A key written twice in the response counts once, with its last value, at
  the place where it first appeared. An earlier value of that key that has
  no close does not fail the call.
- The year `0000` is rejected because the pattern's year-of-era starts at 1,
  although RFC 3339 allows it.
- The close value is passed through as text and is not checked to be
  non-negative. The code never checks it either.

## Model

| member | source | states |
|---|---|---|
| Calendar.PrevDay | AppScraper.java:168 | the previous day is a valid date, earlier than the given one, and exactly one serial day number lower; it borrows across month and year ends |
| Calendar.MinusDays | AppScraper.java:168 | `minusDays(n)` gives a valid date whose serial day number is exactly n lower, and for n > 0 it comes before the given date |
| Calendar.MinusDaysUnique | AppScraper.java:168 | a valid date lies exactly n days earlier if and only if it equals `MinusDays(d, n)` |
| Calendar.DayNumberOrder | AppScraper.java:207 | on valid dates, `isBefore` holds exactly when the serial day number is smaller, and equal day numbers mean equal dates |
| Calendar.MinusMonths | AppScraper.java:164-173 | `minusMonths(n)` gives a valid date whose month count is exactly n lower, with year borrow; its day is today's day clamped to the last day of that month and never larger; for n > 0 it comes before the given date |
| RangeResolver.CalculateFromDate | AppScraper.java:161-175 | never fails, and always gives a valid date before today; "Últimos 30 días" gives exactly 30 days earlier; "Últimos 3 meses" gives 3 months earlier; null and every other label give 6 months earlier; month results keep or clamp the day |
| RangeResolver.NullMeansSixMonths | AppScraper.java:163-173 | a null label gives the same date as "Últimos 6 meses", which is today minus 6 months |
| RangeResolver.LabelsDistinct | AppScraper.java:166-173 | the three labels are pairwise different, so each one reaches its own case |
| DateParsing.ParseDate | AppScraper.java:194-197 | a key parses if and only if it has the form dddd-dd-dd with a year of at least 1, a month from 1 to 12 and a day from 1 to 31; the result is a valid date with those fields, and the day is clamped to the month's length |
| DateParsing.ParseFormatDate | AppScraper.java:194-197 | every valid date with a year from 1 to 9999, printed with `yyyy-MM-dd`, parses back to itself |
| DateParsing.FormatParseDate | AppScraper.java:194-197 | every RFC 3339 full-date whose year is not 0000 parses without clamping, and the result prints back as the same text |
| DateParsing.YearZeroRejected | AppScraper.java:197 | `0000-01-01` is an RFC 3339 full-date, but the parse rejects it |
| DateParsing.SmartResolverClamps | AppScraper.java:197 | `2023-02-30` is not a full-date, yet it parses to 2023-02-28; `2024-02-30` parses to 2024-02-29 |
| Json.Get | AppScraper.java:97-98 | the lookup is absent exactly when no member has the key; otherwise it is the value of the last member with that key |
| Json.GetObject | AppScraper.java:92 | `getAsJsonObject(key)` is absent exactly when the member is absent, fails exactly when the member is present but is not an object, and otherwise gives that object's members |
| Json.AsObject | AppScraper.java:198 | `getAsJsonObject()` succeeds exactly on objects and gives their members |
| Json.AsString | AppScraper.java:97-98 | `getAsString()` gives a string's text, a number's text, "true" or "false" for a boolean, and for a one-element array what its element gives; it fails on null, on objects and on other arrays |
| Json.AsNumberText | AppScraper.java:198 | `getAsDouble()` accepts a number or a string (kept as its text) and a one-element array of one; it fails on null, booleans, objects and other arrays |
| Json.EntrySet | AppScraper.java:196 | `entrySet()` holds each key at most once |
| Json.EntrySetMembers | AppScraper.java:196 | the entry set holds exactly the members' keys, each paired with its last value |
| Json.EntrySetOrder | AppScraper.java:196 | the entries stand in the order in which their keys first appear among the members |
| Json.EntrySetLookup | AppScraper.java:92-98 | looking a key up in the entry set gives what `get(key)` gives on the members |
| Json.EntrySetOfDistinct | AppScraper.java:196 | when no key repeats, the entry set is the member list itself, in the same order |
| Json.EntrySetOfRepeat | AppScraper.java:196 | a key written twice gives a single entry holding the later value |
| Json.EntrySetOfReturn | AppScraper.java:196 | a key that comes back after another key keeps its first place and takes its last value |
| PriceMap.Insert | AppScraper.java:199 | `put` keeps the listing strictly ascending; the new listing holds the new point plus every old point with a different date, and nothing else |
| PriceMap.Tabulate | AppScraper.java:192-200 | after the puts, the listing is strictly ascending and holds exactly the (date, close) pairs of the map that the same puts build |
| PriceMap.FilterFrom | AppScraper.java:204-212 | the filtered listing holds exactly the points not before `fromDate`; filtering an ascending listing keeps it ascending |
| PriceMap.LastPutWins | AppScraper.java:196-199 | the map holds the date of every put, with the close of the last put for that date |
| PriceMap.PutAllKeys | AppScraper.java:196-199 | the map's dates are exactly the dates that were put |
| PriceMap.ListingUnique | AppScraper.java:191-192 | two strictly ascending listings that hold the same points are equal |
| PriceMap.TwoPutsListed | AppScraper.java:191-212 | putting a date and then an earlier one lists the earlier first; when `fromDate` is not after either, both are kept |
| PriceHistory.NoDataMessage | AppScraper.java:188 | the error for a missing time series ends with the symbol |
| PriceHistory.OwnMessage | AppScraper.java:187-189 | the method raises its own message exactly for the missing time series, and that message ends with the symbol |
| PriceHistory.DecodeEntry | AppScraper.java:197-198 | an entry decodes exactly when its key parses, its value is an object and its close member reads as a number; the point carries the parsed date and that close text; a bad key fails with that key |
| PriceHistory.DecodeAll | AppScraper.java:196-200 | decoding succeeds exactly when every entry decodes, and then gives one point per entry in order; otherwise the error is that of the first entry that fails |
| PriceHistory.FirstFailureDecides | AppScraper.java:196-199 | once an entry fails after a prefix that decoded, the later entries cannot change the outcome |
| PriceHistory.PutEntries | AppScraper.java:192-200 | the first loop, over the entry set of the time series, returns the ascending listing of the decoded entries, or the first failure |
| PriceHistory.SeriesFrom | AppScraper.java:202-214 | the second loop returns exactly the listing filtered to dates not before `fromDate`, or the `Day` failure when a kept date's year lies outside 1900..9999 |
| PriceHistory.FetchHistoricalPrices | AppScraper.java:184-214 | the method's outcome equals the specification `History`: an error when the body or the time series is unusable; otherwise the first loop over the entry set and then the charted, filtered ascending series |
| PriceHistory.AbsentSeriesIsNoData | AppScraper.java:185-189 | with no time series member, the call fails with the error that names the symbol |
| PriceHistory.BadEntryFailsWholeCall | AppScraper.java:196-199 | with a time series, the first loop succeeds exactly when every key decodes with its last value (a value a repeat of its key replaced cannot fail it); otherwise the call fails with the error of the first entry of the entry set that does not decode, and returns no partial series |
| PriceHistory.SeriesIsFilteredMap | AppScraper.java:192-214 | a successful series is strictly ascending, holds exactly the map's (date, close) pairs whose date is not before `fromDate`, and has only years a `Day` can hold |
| PriceHistory.KeptYearsDecideChart | AppScraper.java:204-211 | once every entry decodes, the call succeeds exactly when every key, with its last value, dated on or after `fromDate` has a year from 1900 on; otherwise it fails with the `Day` error |
| PriceHistory.RecentRangeCharts | AppScraper.java:204-211 | a range starting in 1900 or later never meets the `Day` error: the series is the filtered listing |
| PriceHistory.LastEntryOfEachDateListed | AppScraper.java:196-212 | an entry of the entry set dated on or after `fromDate`, whose date no later entry of the set shares, is in the series with its close |
| PriceHistory.SeriesDependsOnlyOnMap | AppScraper.java:191-214 | two responses whose entries, in any order, leave the same map give the same series |
| PriceHistory.EmptySeriesIsNotAnError | AppScraper.java:204-214 | when every entry is before `fromDate`, the result is an empty series and not an error |
| PriceHistory.TwoPointsReordered | AppScraper.java:191-212 | two entries that arrive newest first, both in the range and with chartable years, come out oldest first |
| PriceHistory.TwoDayExample | AppScraper.java:184-214 | the payload {"2024-01-02": 100.0, "2024-01-01": 99.0} with `fromDate` 2024-01-01 gives [(2024-01-01, 99.0), (2024-01-02, 100.0)] |
| PriceHistory.RepeatedKeyKeepsLastValue | AppScraper.java:196-199 | the payload {"2024-01-01": {}, "2024-01-01": {"4. close": "1"}} with `fromDate` 2024-01-01 gives [(2024-01-01, 1)]: the first value, which has no close, is replaced and does not fail the call |
| PriceHistory.ClampedKeysLaterEntryWins | AppScraper.java:196-199 | keys 2023-02-30 (close 1), 2023-02-28 (close 2), 2023-02-30 (close 3) leave the map {2023-02-28: 2}: the repeated key keeps its first place, so 2023-02-28 is put last |
| Quote.ReadString | AppScraper.java:97-98 | reading a field succeeds exactly when the member exists and `getAsString` accepts it, and gives that string; a missing member fails with its key |
| Quote.ReadQuote | AppScraper.java:91-99 | "not found" exactly when the body is an object whose quote member is absent or an empty object; a body or quote that is not an object fails with its own error; for a non-empty quote object, the outcome is the quote built from the two strings read when both reads succeed, and otherwise the error of the first read that fails |
| Quote.FieldsPassThrough | AppScraper.java:97-99 | price and change-percent members that are strings or numbers come back as their text, whatever else the quote object holds |
| Quote.EmptyQuoteIsNotFound | AppScraper.java:94-95 | an empty quote object gives "not found", never a quote filled with defaults |

## Left out

- The Swing window, buttons, combo box and dialogs (AppScraper.java:35-83, 110-121) are presentation only. The empty-symbol check in `fetchData` and `showChart` belongs to them.
- The worker threads, `SwingUtilities.invokeLater` and the re-enabling of the buttons (AppScraper.java:85-107, 123-157) are concurrency and UI dispatch.
- The HTTP requests, URLs and API key (AppScraper.java:30-33, 87-90, 179-183) are network I/O. The model starts from the decoded response body.
- Gson's parsing of text into a tree (AppScraper.java:91, 184) is a foreign library. `Json.Json` stands for the text as written: an object is its member list, in which a key may repeat. What Gson's `JsonObject` keeps of that list is modelled: `Json.Get` and `Json.EntrySet` give its lookups and its entry set (one entry per key, at the key's first place, with the key's last value).
- The JFreeChart series and chart (AppScraper.java:126-135, 202, 211) are a charting library. The series is a sequence of (date, close) points. Of `new Day(...)`, only its refusal of a year outside 1900..9999 is modelled (`YearOutsideChart`); the exception's text is not.
- `quote.size() == 0` (AppScraper.java:94) is modelled as an object with no members. That is the same test, since the entry set is empty exactly when there are no members.
- `LocalDate.now()` (AppScraper.java:162) is a clock read. Today is a parameter.
- The result line of `fetchData` (symbol, price, "USD", percent; AppScraper.java:99) is display text. `ReadQuote` returns the two strings it is built from.
- AsNumberText: carries the close value as its text. It does not perform `getAsDouble`'s floating-point conversion. It also does not reject a string that `Double.parseDouble` would refuse, which fails the call in the source.
- ParseDate: rejects keys with a '+'-signed year of five or more digits. The `yyyy` pattern also accepts those, but the service never sends them.
- MinusDays: years are unbounded integers. `LocalDate`'s limit of ±999,999,999 and the exception past it are not modelled; a date taken from the clock never comes near that limit.
- MinusMonths: years are unbounded for the same reason.
