# covid_graph: death series and plotted arithmetic, in Dafny

covid_graph downloads the ECDC case-distribution feed and draws four
charts of COVID-19 deaths for a fixed list of countries. This project
models the logic between the download and the drawing, all in
`src/main.rs`:

- **Loading** (`get_covid_data_json`). The loader takes the decoded feed
  rows and keeps those of year `"2020"`. For each kept row it parses day,
  month, cases and deaths, and turns day and month into a day offset
  through the cumulative month table. It then groups the records by the
  raw `countries_and_territories` key into `CountryData`: the display name
  (the key with `_` made spaces), the records in feed order, and the
  population of the first row seen for the key, or 0 when that does not
  parse. A day, month, cases or deaths field that does not parse stops the
  whole load with an error. A month of 12 or more indexes past the table
  and panics.
- **Cumulative-from-end totals** (the running-sum blocks of
  `draw_evolution_graph`). Walking the records from last to first, each
  record gets the sum of its own deaths and those of every later record.
  The final sum is the legend's total.
- **Rolling average** (`averaged_daily_deaths` and its two call sites).
  The point for record index `i` (`W ≤ i < len`) sits at that record's day.
  It averages the deaths of records `i-W` to `i-1`, so the record itself is
  not in its window.

Modules:

- `Wrappers`: `Option` and `Result`.
- `IntParse`: Rust's `str::parse` for `i32` and for `usize` on a 64-bit
  target, with a decimal formatter as its inverse.
- `CovidData`: rows, records, the loader and its grouping lemmas.
- `Metrics`: deaths sums, the running-sum method, the window, the rolling
  series and the country filter.

The loader is a method whose loop updates a local map, as the source's loop
does. It is proved equal to `Load`, a fold built from two pure stages.
`Normalise` keeps and parses the rows. `Group` performs the insert-or-append
into the map. The lemmas about these stages state what the loader promises.
The running sum is also a method with a loop. The window and the rolling
series are functions, because in the source they are iterator chains.

The model follows the code on these points:

- A row that fails to parse aborts the load; it is not skipped.
- Records are kept in feed order; nothing sorts them.
- A population that does not parse becomes 0; it is not marked unavailable.
- The month table is a leap-year table (February has 29 days), and its
  last entry is 336 as written (see "## Findings").
- The rolling window ends before the current index and does not include
  it. Over `len` records there are `len − W` points.
- Window 2 over two records gives no point.

## Model

| member | source | states |
|---|---|---|
| `IntParse.ParseI32` | src/main.rs:89-91 | a parsed `i32` lies in the 32-bit range; a string that parses is one optional sign followed only by digits |
| `IntParse.ParseUsize` | src/main.rs:89 | a parsed month is at most 2^64−1 and its text is digits with at most a leading `+` (a minus sign never parses) |
| `IntParse.ParseI32OfFormat` | src/main.rs:89-91 | every `i32` written in decimal parses back to itself |
| `IntParse.ParseUsizeOfFormat` | src/main.rs:89 | every `usize` written in decimal parses back to itself |
| `IntParse.ParseI32Exactly` | src/main.rs:89-91 | for a non-empty digit string d, both d and `+`d parse to d's value exactly when it is at most 2^31−1 and fail otherwise; `-`d parses to minus d's value exactly when that is at least −2^31 and fails otherwise |
| `IntParse.ParseUsizeExactly` | src/main.rs:89 | for a non-empty digit string d, both d and `+`d parse to d's value exactly when it is at most 2^64−1 and fail otherwise; `-`d never parses |
| `IntParse.ParseI32AcceptsNonCanonical` | src/main.rs:89-91 | a leading `+` and leading zeros are accepted: "+7" and "007" both parse to 7 |
| `CovidData.FirstDayOfMonthIsLeapYearTable` | src/main.rs:80 | the (corrected) table has 12 entries, entry m is the number of days of 2020 before month m, and it is strictly increasing |
| `CovidData.AsWrittenTableSkipsADay` | src/main.rs:80 | the table as written disagrees with the cumulative month lengths at its last entry, and puts the first day of month 11 two offsets after the last day of month 10 |
| `CovidData.DayOffsetsHaveNoGap` | src/main.rs:80 | with the corrected table the days of 2020 get offsets 1 to 366 with each month's last day followed directly by the next month's first |
| `CovidData.ParseRecord` | src/main.rs:88-92 | a row yields a record exactly when day, month, cases and deaths parse and the month is below 12; the day becomes day + table[month] with the table as written (last entry 336); otherwise the error names the first failing step in evaluation order: day, month, table index (a month of 12 or more), cases (when day and month passed), deaths (when cases also parsed) |
| `CovidData.DisplayName` | src/main.rs:100 | the display name has the key's length and is the key with every `_` replaced by a space and every other character kept |
| `CovidData.DisplayNameNormal` | src/main.rs:100 | a display name contains no `_`, and renaming it again leaves it unchanged |
| `CovidData.DisplayNameNotInjective` | src/main.rs:95-100 | two different raw keys can have the same display name, so grouping by the raw key keeps apart rows that the display name would merge |
| `CovidData.GetCovidData` | src/main.rs:78-107 | the insert-or-append loop with early return on a failing row returns exactly `Load(rows)`: the error of the first failing 2020 row, or the grouped map |
| `CovidData.Only2020` | src/main.rs:84-86 | the kept rows are exactly the rows of year `"2020"`, never more than the input |
| `CovidData.LoadIgnoresOtherYears` | src/main.rs:84-86 | loading the feed gives the same result as loading only its 2020 rows: other rows change nothing, even when their fields do not parse |
| `CovidData.NormaliseStopsAtError` | src/main.rs:89-91 | once a prefix of the rows fails, the whole load fails with that same error; no partial result |
| `CovidData.NormaliseSucceeds` | src/main.rs:82-92 | the load gets past parsing exactly when every 2020 row parses; it then has one entry per 2020 row, in feed order, each carrying that row's raw key, parsed record and population text |
| `CovidData.NormaliseFirstError` | src/main.rs:88-92 | a failed load reports the parse failure of a 2020 row before which every 2020 row parsed |
| `CovidData.GroupKeys` | src/main.rs:95-104 | the map's keys are exactly the raw keys of the kept entries |
| `CovidData.GroupContents` | src/main.rs:95-104 | each group holds exactly its key's records in input order and is never empty; its name is the display name of its key |
| `CovidData.GroupPopulationFirstWins` | src/main.rs:98-103 | a group's population is the parsed population (0 when it does not parse) of the first entry for its key; later entries for the key never overwrite it |
| `CovidData.GroupTotal` | src/main.rs:95-104 | the groups together hold exactly as many records as there are entries |
| `CovidData.LoadKeepsEveryRecord` | src/main.rs:82-107 | a successful load has a group for exactly the countries of the 2020 rows, and its groups hold one record per 2020 row |
| `Metrics.CumulativeFromEnd` | src/main.rs:163-171 | one point per record; point k is at record n−1−k's day with the deaths of records n−1−k to n−1; consecutive points differ by exactly the deaths of the record the walk reached; the first point is the last record's own deaths, the last point is the total, and the returned sum is the deaths of all records (the same loop is at 222-230) |
| `Metrics.CumulativeExample` | src/main.rs:163-171 | deaths 5, 3, 2 give cumulative values 10, 5, 2 at those records |
| `Metrics.Skip` | src/main.rs:112 | `skip(n)` keeps the items from index n on, and nothing when n is past the end |
| `Metrics.Take` | src/main.rs:112 | `take(n)` keeps the first n items, or all when there are fewer |
| `Metrics.WindowDeaths` | src/main.rs:110-112 | when the window fits, the sum is the deaths of exactly the avgDays records from currentDay−avgDays up to but not including currentDay; past the end it is the deaths of the records that remain; the call needs avgDays ≤ currentDay |
| `Metrics.WindowDeathsIsPrefixDifference` | src/main.rs:112 | the window sum is the deaths of the first currentDay records minus those of the first currentDay−avgDays |
| `Metrics.WindowDeathsSlides` | src/main.rs:112 | moving the window one record adds the record at the old currentDay and drops the one at currentDay−avgDays |
| `Metrics.AveragedDailyDeaths` | src/main.rs:110-114 | the average times avgDays is the deaths of the avgDays records before currentDay |
| `Metrics.RollingAverage` | src/main.rs:195-197 | the series has len−W points when len > W and none otherwise; point k sits at record W+k's day and averages records k to k+W−1; every call of the average meets its preconditions |
| `Metrics.RollingAverageNeedsMoreThanWindow` | src/main.rs:195 | with no more records than the window, the series is empty |
| `Metrics.RollingAverageExample` | src/main.rs:195-197 | window 3 over deaths 10, 20, 30, 40 gives one point, at the fourth record, of value 20 |
| `Metrics.SelectCharted` | src/main.rs:157-160 | the charted regions are exactly those whose display name is in the fixed country list, and there are never more of them than regions |

## Findings

| source | as written | input that shows it | evidently intended | confidence | as-written member | corrected member |
|---|---|---|---|---|---|---|
| src/main.rs:80 | the last entry of the month table is 336 | a 2020 row with day 30 and month 10 gets offset 335, and one with day 1 and month 11 gets 337; no date gets 336 | 335: the days of 2020 before December (31+29+31+30+31+30+31+31+30+31+30), as every other entry is a sum like this | high; not executed | `CovidData.AsWrittenTableSkipsADay` | `CovidData.DayOffsetsHaveNoGap` |

The loader in this model (`ParseRecord`, `GetCovidData`) keeps the table
as written, so its day offsets are those of the source, 336 for 1 December
included. The corrected table `FirstDayOfMonth` and the lemmas about it
state what the table evidently meant.

## Left out

- The HTTP fetch and JSON decoding (src/main.rs:75-76) are network I/O and a foreign library. The model starts from the decoded rows as text fields.
- The row fields the loader never reads (`date_rep`, `geo_id`, `countryterritory_code`, `continent_exp`) are not in `Row`.
- All chart drawing (palette, layout, legends, image output, the colour index from `enumerate`) is rendering through a library outside the model.
- All `f32` arithmetic is left out: the casts of day and sums to `f32`, rounding, and the per-capita division by `population_2018 / 100000` (src/main.rs:220, 227, 252, 259). The per-capita curves use the same numerators and indices as the modelled ones. A population of 0 would divide by zero there, and the source does not guard against it.
- `i32` overflow is not modelled. This covers `day + first_day_of_month[month]`, the running sum and the window sum. A debug build panics there and a release build wraps, so the outcome depends on the build profile. Parsing does enforce the `i32` and `usize` ranges.
- `CovidData.GetCovidData`: it returns a map from raw key to group. The source returns the map's values in `HashMap` iteration order, which is unspecified.
- `CovidData.ParseRecord`: `MonthOutOfBounds` is an error value, but the source panics there. Like an error, it returns no groups. The kind of a parse error (empty, invalid digit, overflow) is not kept, only the field that failed.
- `Metrics.AveragedDailyDeaths`: it requires avgDays > 0. With 0 the source computes 0/0 in `f32`, which is NaN, not a panic. The only caller passes 7.
- `Metrics.RollingAverage`: it requires a window above 0 for the same reason.
- `main` (src/main.rs:280-286) only wires the load to the drawing.
