# Climate-data retrieval utilities, modelled in Dafny

The repository is one Python module, `utilities.py`, with two functions:

- `cumulative_days_in_months` builds the cumulative day count at the end of each
  month over a fixed leap-year month table (February always has 29 days, on
  purpose). It is an imperative loop that adds each month to a running total and
  appends the total to a list. Here it is the method
  `MonthDays.CumulativeDaysInMonths`. The method is proved against the
  specification function `MonthDays.RunningTotals`. Lemmas about that function
  give the rest: strict increase, the last value, the exact table, and that
  differences give back the month table.
- `retrieve_data` builds a request record and an output filename from a
  variable, a date range and a coordinate, then hands both to the data-service
  client and returns the filename. The pure part, the record and the filename,
  is `Retrieval.PrepareRetrieval`, whose filename is `Retrieval.OutputFilename`. It is proved against a filename parser
  (`Retrieval.ParseFilename`) and a date-interval splitter. Together these prove
  that, whenever the dates and coordinates contain no `_`, the filename parses
  back into its five inputs and no two such retrievals share a filename. Without
  that condition the encoding is not injective: for example
  `OutputFilename("a_b","c","d","e","f") == OutputFilename("a","b_c","d","e","f")`.

Files:

- `wrappers.dfy`: `Option` and `Result`.
- `strings.dfy`: splitting a string at the first or last occurrence of a
  character, with round-trip lemmas.
- `month_days.dfy`: the month table, running totals, differences, and the method.
- `retrieval.dfy`: the request record, the filename, and the parser.

Coordinates are modelled as already-rendered text (`Coordinate = string`). The
request record carries them unchanged, and the filename embeds that same text.

## Model

| member | source | states |
|---|---|---|
| `MonthDays.CumulativeDaysInMonths` | utilities.py:34-45 | The loop keeps the running total equal to the sum of the months seen so far, and the list equal to their running totals. The result is the running totals of the leap-year table: exactly `[31,60,91,121,152,182,213,244,274,305,335,366]`. It has 12 entries, is strictly increasing, ends at 366, and its differences are the month table (February 29). |
| `MonthDays.RunningTotals` | utilities.py:39-43 | There is one output entry per input element, and entry i is the sum of the first i+1 elements. This is the prefix-sum invariant of the loop. |
| `MonthDays.SumOfLongerPrefix` | utilities.py:42 | Adding the next month to the total of a prefix gives the total of the longer prefix. |
| `MonthDays.SumOfPrefixGrows` | utilities.py:41-43 | When every element is positive, a longer prefix has a strictly larger sum. |
| `MonthDays.RunningTotalsGrow` | utilities.py:41-43 | When every element is positive, an earlier running total is strictly below a later one. |
| `MonthDays.PositiveGivesIncreasing` | utilities.py:41-43 | When every element is positive, the running totals are strictly increasing and the first is positive. |
| `MonthDays.IncreasingGivesPositive` | utilities.py:41-43 | The converse: strictly increasing running totals with a positive first entry come only from positive elements. |
| `MonthDays.RunningTotalsStep` | utilities.py:42-43 | Each running total is the previous one (0 before the first) plus the element at that position. |
| `MonthDays.DifferencesOfRunningTotals` | utilities.py:41-43 | Taking consecutive differences of the running totals, with 0 before the first, gives back the input sequence. |
| `MonthDays.SumOfDifferences` | utilities.py:41-43 | The first k differences of a sequence add up to its entry k-1 (telescoping). |
| `MonthDays.RunningTotalsOfDifferences` | utilities.py:41-43 | The running totals of a sequence's differences give back that sequence. This is the other direction of the round trip. |
| `MonthDays.LastRunningTotalIsSum` | utilities.py:43-45 | The last running total is the sum of the whole sequence. |
| `MonthDays.CumulativeTableDifferences` | utilities.py:36 | The differences of the expected result are exactly the leap-year month table. |
| `MonthDays.DaysInMonthsTotals` | utilities.py:36-45 | The running totals of the table are the expected 12-entry result, and the table sums to 366. |
| `Strings.SplitAtFirst` | utilities.py:13 | The result is None exactly when the separator does not occur. Otherwise the input is the first part, the separator, then the second part, and the first part holds no separator. (This is the inverse of the concatenation at the cited line, used for the round trip; the source itself does not split strings.) |
| `Strings.SplitAtLast` | utilities.py:19 | The result is None exactly when the separator does not occur. Otherwise the input is the first part, the separator, then the second part, and the second part holds no separator. (This is the inverse of the concatenation at the cited line, used for the round trip; the source itself does not split strings.) |
| `Strings.SplitAtFirstOfJoin` | utilities.py:13 | Joining a separator-free part and any part with the separator, then splitting at the first separator, gives both parts back. (This is the inverse of the concatenation at the cited line, used for the round trip; the source itself does not split strings.) |
| `Strings.SplitAtLastOfJoin` | utilities.py:19 | Joining any part and a separator-free part with the separator, then splitting at the last separator, gives both parts back. (This is the inverse of the concatenation at the cited line, used for the round trip; the source itself does not split strings.) |
| `Retrieval.DateInterval` | utilities.py:13 | The date string is the start, then `/`, then the end, at known positions. |
| `Retrieval.OutputFilename` | utilities.py:19 | The filename is the variable, start, end, latitude and longitude joined by `_`, then `.nc`. Each field sits at its exact position, with a `_` after each of the first four, and `.nc` ends the name; the length is the fields' lengths plus four separators and the extension. `ParseOutputFilename` proves its inverse, and `OutputFilenameInjective` proves it injective when the dates and coordinates hold no `_`. |
| `Retrieval.BuildRequest` | utilities.py:9-16 | The request has a one-element variable list holding the variable, and a one-element date list holding the date interval. Its location holds the given longitude and latitude unchanged, and its format is `netcdf`. |
| `Retrieval.ParseFilename` | utilities.py:19 | A filename that parses is exactly the output filename of the parsed fields, and the parsed dates and coordinates hold no underscore. |
| `Retrieval.PrepareRetrieval` | utilities.py:9-19 | A date range with fewer than two entries fails with an index error. Otherwise the request is as above, built from the range's first two entries. The filename is exactly `OutputFilename` of the variable, the range's first two entries, the latitude and the longitude, for every input (utilities.py:19, returned at utilities.py:32). It ends in `.nc`, and when the dates and coordinates hold no underscore it parses back into exactly the five inputs. |
| `Retrieval.SplitDateInterval` | utilities.py:13 | A date interval whose start holds no `/` splits back into its start and end. |
| `Retrieval.ParseOutputFilename` | utilities.py:19 | A filename built from dates and coordinates that hold no underscore parses back into exactly its five inputs. The variable may contain underscores. |
| `Retrieval.OutputFilenameInjective` | utilities.py:19 | Two such retrievals get the same filename only when all five inputs are equal. |
| `Retrieval.ExampleFilename` | utilities.py:9-19 | Variable `sst` over `2000-01-01`..`2000-12-31` at latitude `10.0`, longitude `20.0` gives the request for `2000-01-01/2000-12-31` and the file `sst_2000-01-01_2000-12-31_10.0_20.0.nc`. |

## Left out

- The data-service client (utilities.py:25, utilities.py:28): creating it with the URL and key, and its retrieval call, are network access, authentication and a file write done by a library outside this model. `PrepareRetrieval` stops at the request and filename handed to it. `retrieve_data` returns that filename (utilities.py:32) unchanged.
- The three console `print` calls (utilities.py:21-22, utilities.py:30) are output with no contract.
- The endpoint URL and the dataset identifier (utilities.py:5, utilities.py:8) are constants that only the client uses.
- Rendering the float coordinates as text inside the filename (utilities.py:19) is float formatting. The model takes latitude and longitude as already-rendered strings, both in the request and in the filename, so it does not capture that the request carries numbers while the filename carries their text.
- Errors the service raises (connection failures, rejected requests) propagate from the client call and are outside the model. The code validates neither date order nor coordinate ranges, and neither does the model.
- A date range whose first two entries are not strings would fail in the concatenation (utilities.py:13). The model types the date range as a sequence of strings.
- Determinism of the filename (identical inputs give an identical name) holds of every Dafny function, so it needs no lemma of its own.
