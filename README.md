# House price index returns: a verified model

This project models `modules/data_processing.py` of a small repository that
loads state-level house price index (HPI) series from a directory of CSV
files and computes each series' annualised total return between two dates.

- `results.dfy` (`Results`): `Option` and `Result` wrappers.
- `calendar.dfy` (`Calendar`): proleptic Gregorian dates and the ordinal day
  number Python's `datetime` counts with (`date.toordinal()`). Subtracting
  two midnight datetimes and taking `.days` is the same as subtracting their
  ordinals. Comparing two datetimes is the same as comparing their ordinals
  (`OrdinalOrder`).
- `date_format.dfy` (`DateFormat`): the zero-padded `%Y-%m-%d` strings that
  `datetime.strptime` reads, with a round trip in both directions.
- `return_calculator.dfy` (`ReturnCalculator`): `total_return`. A date
  argument is a `DateArg`: a datetime (by its day number), a string, or any
  other value. The table is a sequence of rows. Each row holds a day number
  and a map from column name to value; a column missing from the map is a
  missing value. `AnnualisedChanges` is the reference definition of the
  outcome before sorting. The method `TotalReturn` follows the source step
  by step: classify, swap, year fraction, row selection by a scanning loop
  (`SelectRow`), per-column changes, then an insertion sort (`SortDescending`).
- `loader.dfy` (`Loader`): the non-I/O parts of `load_state_data`. These
  are the `.csv` filter over a directory listing, the concatenation of the
  files' column labels, and the column renaming: every `STHPI` is dropped,
  then surrounding whitespace is stripped.

Outcomes that Python expresses as a return value or an exception are
`Result` errors here:
- `WrongArgumentType` is the `-1` the function returns.
- `DateParseError` is the `ValueError` raised by `strptime`.
- `NoRowOnOrAfter(d)` is the `IndexError` raised by `iloc[0]` on an empty
  selection.
- `NoObjectsToConcatenate` is the `ValueError` raised by `pd.concat([])`.
- `ZeroElapsed` and `UndefinedChange(c)` stand for the results that are not
  finite in floating point (see "Left out").

The model follows what the code does in three places where its docstring
or a natural reading of the function says otherwise:
- A string that does not parse raises. It does not return the `-1`
  sentinel, whatever the docstring at `modules/data_processing.py:43` says
  (`MalformedStringRaises`, `NotADateRaises`).
- The result is not promised a stable order among equal values. The default
  `sort_values` sort is not stable, so the model states only "non-increasing
  and a permutation".
- The result does not depend on argument order once both dates are read
  (`OrderIndependent`). Which error an invalid pair gives does depend on
  order, because the start argument is checked first. For example, a
  non-date start with an unparsable final string gives the sentinel, while
  the swapped pair raises.

## Model

| member | source | states |
|---|---|---|
| `Calendar.DaysInMonth` | modules/data_processing.py:47 | a month has 28 to 31 days, and 29 exactly for February of a leap year |
| `Calendar.DaysBeforeYearIsSum` | modules/data_processing.py:60 | the closed-form day count before a year equals the sum of the lengths of all earlier years |
| `Calendar.DaysBeforeMonthIsSum` | modules/data_processing.py:60 | the month table equals the sum of the earlier months' lengths |
| `Calendar.MonthsAddUpToYear` | modules/data_processing.py:60 | the twelve months add up to the year's length |
| `Calendar.YearStep` | modules/data_processing.py:60 | from one January 1st to the next the day count grows by the length of that year |
| `Calendar.DaysBeforeYearMonotone` | modules/data_processing.py:57 | a later year starts no earlier, and after the earlier year has ended |
| `Calendar.MonthsFollowEachOther` | modules/data_processing.py:57 | a later month of a year starts after an earlier one ends, and every month ends within the year |
| `Calendar.Ordinal` | modules/data_processing.py:60 | a valid date's day number comes after every day of the earlier years and within the length of its own year |
| `Calendar.OrdinalOrder` | modules/data_processing.py:57-58 | one valid date is before another exactly when its day number is smaller, and equal day numbers mean equal dates |
| `Calendar.OrdinalBefore` | modules/data_processing.py:57 | a date before another has a smaller day number |
| `DateFormat.DigitChar` | modules/data_processing.py:47 | a digit value is written as a decimal digit character |
| `DateFormat.NumberValue` | modules/data_processing.py:47 | the value of n digits is below 10^n |
| `DateFormat.Padded` | modules/data_processing.py:47 | zero-padding gives exactly the requested number of digits |
| `DateFormat.NumberValueOfPadded` | modules/data_processing.py:47 | a number below 10^w reads back from its w-digit padded form |
| `DateFormat.PaddedOfNumberValue` | modules/data_processing.py:47 | a string of digits is the padded form of its own value |
| `DateFormat.ParseIso` | modules/data_processing.py:47 | a string that parses has ten characters and gives a valid date |
| `DateFormat.FormatIso` | modules/data_processing.py:47 | a formatted date has ten characters |
| `DateFormat.ParseFormat` | modules/data_processing.py:47 | every valid date parses back from its `YYYY-MM-DD` form |
| `DateFormat.FormatParse` | modules/data_processing.py:47 | a string that parses names a valid date and is exactly that date's formatted form |
| `DateFormat.ParseIsoExactly` | modules/data_processing.py:47 | a string parses to a date if and only if the date is valid and the string is its formatted form |
| `ReturnCalculator.Classify` | modules/data_processing.py:45-54 | a date argument gives the sentinel exactly when it is neither a datetime nor a string; a string fails exactly when it does not parse; a datetime keeps its day |
| `ReturnCalculator.StringReadsAsFormattedDate` | modules/data_processing.py:46-47 | a string that is read is the formatted form of a valid date and gives that date's day number |
| `ReturnCalculator.ResolveDates` | modules/data_processing.py:45-54 | both dates are read if and only if each argument is; a failing start argument decides the error before the final one is looked at |
| `ReturnCalculator.OrderedDates` | modules/data_processing.py:57-58 | the pair comes out in non-decreasing order and is the input pair or its swap |
| `ReturnCalculator.YearFraction` | modules/data_processing.py:60 | the year fraction is non-negative, zero exactly when both dates are the same day, and 365.25 times it is the day count |
| `ReturnCalculator.FirstAtOrAfter` | modules/data_processing.py:63-64 | a selected row is on or after the boundary and every earlier row is before it; nothing is selected exactly when every row is before the boundary |
| `ReturnCalculator.SelectRow` | modules/data_processing.py:63-64 | the scanning loop finds exactly the row `FirstAtOrAfter` describes |
| `ReturnCalculator.AnnualisedChange` | modules/data_processing.py:66-67 | applying the annualised rate over the elapsed years to the start value gives the stop value back |
| `ReturnCalculator.ColumnChanges` | modules/data_processing.py:66-67 | success exactly when every column is present in both rows with a non-zero start; then one entry per column, in column order, holding `(stop - start) / start * 100 / years`; otherwise the error names the first column that is not defined |
| `ReturnCalculator.AnnualisedChanges` | modules/data_processing.py:30-67 | a successful outcome has one change per column, labelled with the columns in their order |
| `ReturnCalculator.InsertAtKeepsOrder` | modules/data_processing.py:69 | placing an entry between the entries not smaller and the entries smaller keeps the order non-increasing |
| `ReturnCalculator.InsertDescending` | modules/data_processing.py:69 | inserting into a non-increasing sequence keeps it non-increasing and adds exactly the new entry |
| `ReturnCalculator.SortDescending` | modules/data_processing.py:69 | the output is ordered by non-increasing value and is a permutation of the input |
| `ReturnCalculator.TotalReturn` | modules/data_processing.py:30-70 | fails exactly when and as `AnnualisedChanges` fails; otherwise returns its per-column changes as a permutation ordered by non-increasing value |
| `ReturnCalculator.SentinelExactly` | modules/data_processing.py:45-54 | the `-1` outcome comes exactly from a start of the wrong type, or a readable start and a final of the wrong type |
| `ReturnCalculator.DateErrorsIgnoreTable` | modules/data_processing.py:45-54 | when a date argument is rejected the outcome is the same for every table, and it is the sentinel or the parse error |
| `ReturnCalculator.MalformedStringRaises` | modules/data_processing.py:46-52 | an unparsable start string raises the parse error whatever the final argument is; an unparsable final string raises it after any readable start; neither gives the sentinel |
| `ReturnCalculator.NotADateDoesNotParse` | modules/data_processing.py:47 | `"not-a-date"` is not a `%Y-%m-%d` date |
| `ReturnCalculator.MissingLeapDayDoesNotParse` | modules/data_processing.py:47 | `"2021-02-29"` is not a date, since 2021 is not a leap year |
| `ReturnCalculator.NotADateRaises` | modules/data_processing.py:43-52 | `"not-a-date"` and the non-existent `"2021-02-29"` raise the parse error, even when paired with an argument of the wrong type afterwards |
| `ReturnCalculator.OrderIndependent` | modules/data_processing.py:57-58 | once both dates are read, swapping the arguments gives the same outcome |
| `ReturnCalculator.OutOfRangeExactly` | modules/data_processing.py:63-64 | the call fails for lack of a row exactly when no row is on or after the later date |
| `ReturnCalculator.SelectionMonotone` | modules/data_processing.py:63-64 | a later boundary selects a row no earlier in the table |
| `ReturnCalculator.SelectionIsNearest` | modules/data_processing.py:63-64 | on a table in date order the selected row has the earliest date on or after the boundary, and is on the boundary when a row is |
| `ReturnCalculator.AnnualisedChangeSign` | modules/data_processing.py:66-67 | with a positive start and positive time, the rate is positive exactly when the value rose and zero exactly when it did not move |
| `ReturnCalculator.SuccessUsesSelectedRows` | modules/data_processing.py:57-67 | a successful outcome has a positive elapsed time unless the table has no columns, and one entry per column in column order, each the annualised change between the two selected rows |
| `ReturnCalculator.SameDay` | modules/data_processing.py:60-67 | when both dates are the same day and a row is on or after it, a table with columns has no finite change and a table without columns gives no changes |
| `ReturnCalculator.WorkedExampleDates` | modules/data_processing.py:47-52 | `"2020-01-01"` and `"2021-01-01"` are read as days 737425 and 737791 |
| `ReturnCalculator.WorkedExample` | modules/data_processing.py:45-67 | over 2020-01-01 to 2021-01-01, a series going from 100 to 110 yields 3652.5 / 366 (about 9.98) percent and one going from 200 to 190 yields -1826.25 / 366 (about -4.99) percent |
| `ReturnCalculator.SortExample` | modules/data_processing.py:69 | changes of 5, 20 and -3 percent can only be reported as 20, 5, -3 |
| `Loader.IsCsvName` | modules/data_processing.py:20 | a name is read exactly when it is some stem followed by `.csv` |
| `Loader.CsvFrames` | modules/data_processing.py:19-22 | no frame is read exactly when no entry name ends in `.csv`; a frame is read exactly when some `.csv` entry holds it |
| `Loader.ConcatColumns` | modules/data_processing.py:23 | a label is in the merged table exactly when it is a label of one of the frames |
| `Loader.OccursAtShift` | modules/data_processing.py:26 | an occurrence after the first character is an occurrence in the rest, one position earlier |
| `Loader.RemoveToken` | modules/data_processing.py:26 | removal never lengthens a name and always shortens it by a whole number of token lengths; which characters remain is fixed by `RemoveTokenAtFirstOccurrence` and `RemoveTokenKeepsTokenFree` |
| `Loader.RemoveTokenShortensExactlyWhenPresent` | modules/data_processing.py:26 | removal shortens a name exactly when the token occurs in it |
| `Loader.IsSpace` | modules/data_processing.py:26 | no ASCII letter or digit is whitespace, so stripping never removes part of a state code |
| `Loader.LeadingSpaces` | modules/data_processing.py:26 | the leading whitespace run is all whitespace and is followed by a non-whitespace character or the end |
| `Loader.TrailingSpaces` | modules/data_processing.py:26 | the trailing whitespace run is all whitespace and is preceded by a non-whitespace character or the start |
| `Loader.LeadingSpacesOf` | modules/data_processing.py:26 | whitespace in front of a string that starts with a non-whitespace character is exactly the leading run |
| `Loader.TrailingSpacesOf` | modules/data_processing.py:26 | whitespace after a string that ends with a non-whitespace character is exactly the trailing run |
| `Loader.Strip` | modules/data_processing.py:26 | the stripped name has no whitespace at either end and is a slice of the name with only whitespace around it |
| `Loader.StripSurrounding` | modules/data_processing.py:26 | stripping whitespace from around a trimmed string gives that string back |
| `Loader.StripIdempotent` | modules/data_processing.py:26 | stripping twice is stripping once |
| `Loader.NormaliseColumn` | modules/data_processing.py:26 | a renamed column has no surrounding whitespace and is no longer than the original |
| `Loader.NormaliseColumns` | modules/data_processing.py:26 | renaming keeps the number of columns and renames each one in its position |
| `Loader.RemoveTokenAtFirstOccurrence` | modules/data_processing.py:26 | at the first occurrence of the token, everything before it is kept, the occurrence is dropped and the removal goes on after it; with `RemoveTokenKeepsTokenFree` this fixes the result for every name |
| `Loader.RemoveTokenKeepsTokenFree` | modules/data_processing.py:26 | a name without the token is unchanged by the removal |
| `Loader.RemoveTokenSinglePass` | modules/data_processing.py:26 | the removal is one pass: `"STSTHPIHPI"` becomes `"STHPI"` |
| `Loader.RemoveTokenAfterCode` | modules/data_processing.py:26 | a code followed by the token and whitespace loses only the token, when no occurrence starts inside the code |
| `Loader.NormaliseSeriesLabel` | modules/data_processing.py:26 | a trimmed code followed by the token and whitespace is renamed to the code, when no occurrence starts inside the code |
| `Loader.CaliforniaLabel` | modules/data_processing.py:26 | `"CASTHPI "` becomes `"CA"` |
| `Loader.CsvNameExamples` | modules/data_processing.py:20 | `CASTHPI.csv` and `.csv` are read; `CASTHPI.CSV`, `README.md` and `csv` are skipped |
| `Loader.LoadStateColumns` | modules/data_processing.py:7-27 | fails exactly when no entry is a `.csv` file; otherwise returns the renamed concatenation of the `.csv` entries' labels, in listing order |
| `Loader.LoadedColumnsComeFromCsvFiles` | modules/data_processing.py:19-26 | every label of the merged table comes from a column of some `.csv` entry |

## Left out

- Directory listing and CSV reading (`os.listdir`, `pd.read_csv`) are I/O. The listing is an input sequence of entries. Each entry carries the data column labels that reading it would give.
- The rows of the merged table are not modelled. This covers the outer join on the row labels done by `pd.concat(frames, axis=1)` and the label parsing done by `pd.to_datetime`, including its error on a label that is not a date. Both are library internals. `total_return` takes the merged table as an abstract input.
- Time of day is not modelled. Datetimes are whole days (day numbers), as the `%Y-%m-%d` strings and date-labelled rows are.
- `datetime.date` values that are not `datetime`s fall under `OtherValue`, as they do in the source (wrong type, sentinel).
- `DateFormat.ParseIso` and `ReturnCalculator.Classify`: a string is read only in the zero-padded `YYYY-MM-DD` form. `strptime` also accepts forms such as `2020-1-5` and non-ASCII decimal digits. The model reports those as parse errors, so for them it is stricter than the source.
- Floating point is not modelled: values are Dafny `real`, and 365.25 and the formula are exact.
- `ReturnCalculator.TotalReturn`: the source returns infinite or NaN entries in two cases. The model reports them as errors:
  - both dates are on the same day and the table has columns (`ZeroElapsed`, which comes after row selection, as the division does). On a table without columns the source returns an empty Series, and so does the model;
  - a selected row lacks a column or has a zero start value (`UndefinedChange`, naming the first such column).
  The placement of NaN entries by the sort is therefore not modelled.
- `ReturnCalculator.TotalReturn`: does not model the `squeeze(axis=0)` quirk on a one-column table. There `changes` becomes a scalar and the in-place sort fails. This is library behaviour, not the intended logic.
- `ReturnCalculator.SortDescending`: promises no order among equal values, because the source's sort is not stable.
