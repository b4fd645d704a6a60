# PySAR date utilities in Dafny

A verified model of PySAR's date-utility module `pysar/_datetime.py`, the date algebra used
by the InSAR time-series tools. SAR acquisition dates are strings in `YYMMDD` or `YYYYMMDD`
form. The module:

- expands two-digit years to four digits, using the rule "a year starting with 9 is 199x,
  any other is 20xx", and strips the century again;
- assembles the sorted, duplicate-free date list of an interferogram file from the
  `DATE12` attribute (`DATE1-DATE2`) of every dataset in the file's interferogram, coherence
  or wrapped-phase group;
- reads a date list from the lines of a text file;
- indexes dates by position;
- computes temporal baselines, the whole days from the first acquisition to each one.

Files and modules:

- `wrappers.dfy` (`Wrappers`): `Option` and `Result`.
- `strings.dfy` (`Strings`): the parts of Python 2's `str` that the module relies on. This is
  bytewise ordering (what `list.sort()` compares), decimal digit strings, and
  `str.split`/`str.join`. The module is Python 2 code, so its dates, whether read from a
  text file or from HDF5 attributes, are byte strings. A Dafny `char` stands for one byte,
  so string lengths such as `len(date) == 6` count bytes. A non-ASCII character is
  given as its separate UTF-8 bytes.
- `calendar.dfy` (`Calendar`): what `time.strptime(s, "%Y%m%d")` accepts, and the ordinal
  day number whose differences are the `days` of a `datetime` subtraction. The day number
  is Python's own `_ymd2ord`: days before the year, plus days before the month, plus the day.
- `sorting.dfy` (`Sorting`): `list.sort()` on strings, with the lemma that the sorted
  arrangement of a multiset is unique.
- `datetime.dfy` (`Datetime`): the module's operations. A Python function that accepts
  either a string or a list becomes two members. The scalar form is a function. The list
  form is a method with the source's append loop, plus a specification function over the
  whole list.

Every failure the modelled operations can meet is a `Datetime.Error` value in a `Result`. An IndexError,
a KeyError, a `sys.exit(1)`, the ValueError of `strptime` and the UnboundLocalError each
get their own case.

## Model

| member | source | states |
|---|---|---|
| `Datetime.ExpandCentury` | pysar/_datetime.py:45-48 | the result is the input with two characters in front; they are "19" exactly when the input starts with '9', and "20" otherwise |
| `Datetime.CenturyBoundary` | pysar/_datetime.py:45-48 | "990101" becomes "19990101" and "010101" becomes "20010101" |
| `Datetime.ToYyyymmdd` | pysar/_datetime.py:52-54 | a 6-character date gains a century prefix following the century rule; any other string is returned unchanged |
| `Datetime.ToYyyymmddList` | pysar/_datetime.py:55-59 | the output list has the input's length and order; element i is expanded exactly when input element i has 6 characters, otherwise it is passed through |
| `Datetime.ToYyyymmddIdempotent` | pysar/_datetime.py:51-63 | normalising a date twice gives the same result as normalising it once |
| `Datetime.ToYymmdd` | pysar/_datetime.py:67-69 | the scalar form as written fails (UnboundLocalError on `date`) exactly for 8-character input; every other string is returned unchanged |
| `Datetime.ToYymmddFailsOnFullDate` | pysar/_datetime.py:68 | the scalar form fails on "20060101", whose intended result is "060101" |
| `Datetime.ToYymmddList` | pysar/_datetime.py:70-74 | the output has the input's length; each 8-character element is replaced by its last 6 characters and every other element is unchanged |
| `Datetime.TrimCenturyAfterExpand` | pysar/_datetime.py:51-78 | stripping the century from an expanded 6-character date gives the date back, and expanding that again gives the expanded date |
| `Datetime.ExpandAfterTrimCentury` | pysar/_datetime.py:51-78 | expanding a stripped 8-character date gives it back when its century follows the century rule |
| `Datetime.ListRoundTrip` | pysar/_datetime.py:51-78 | on a list of 6-character dates, `yymmdd(yyyymmdd(dates)) == dates` |
| `Datetime.SelectKind` | pysar/_datetime.py:88-92 | picks "interferograms" if that group exists, else "coherence", else the first group; only "wrapped" is accepted as a first group; no groups is an IndexError |
| `Datetime.SplitDate12` | pysar/_datetime.py:98-99 | computes `Date12Pair`: a missing `DATE12` is a KeyError, a `DATE12` with fewer than two pieces is an IndexError, and otherwise the result is the first two pieces, normalised |
| `Datetime.Date12PairFailures` | pysar/_datetime.py:98-101 | reading a dataset fails exactly when it has no `DATE12`, or when its `DATE12` contains no '-' |
| `Datetime.Date12PairOfHalves` | pysar/_datetime.py:98-101 | a `DATE12` of the form "DATE1-DATE2", optionally followed by "-..." and more, yields DATE1 and DATE2, each normalised |
| `Datetime.CollectDates` | pysar/_datetime.py:95-102 | succeeds exactly when every dataset has a `DATE12` with a '-'. It then returns a strictly ascending list holding exactly the normalised first two dates of every dataset. Otherwise it reports the error of the first bad dataset |
| `Datetime.IgramDateList` | pysar/_datetime.py:82-106 | an unsupported or missing group kind is reported; otherwise the result is the date list of the selected group's datasets, as for `CollectDates` |
| `Datetime.ReadDateList` | pysar/_datetime.py:110-119 | the result has one entry per line, is sorted, and is a permutation of the normalised lines (duplicates kept) |
| `Datetime.DateIndex` | pysar/_datetime.py:123-127 | the keys are exactly the dates of the list; each date maps to its last position in the list; in a strictly ascending list, date i maps to i |
| `Datetime.KeyByDate` | pysar/_datetime.py:139-141 | the dictionary's keys are exactly the list's dates; each date maps to the value at its last position |
| `Datetime.DateListToTbase` | pysar/_datetime.py:130-143 | an empty list is an IndexError; otherwise it fails exactly when some date does not parse, reporting the first such date. On success, baseline i is the days from date 0 to date i, baseline 0 is 0, and the dictionary maps each date of the list, and nothing else, to its baseline |
| `Datetime.SortedIffBaselinesNondecreasing` | pysar/_datetime.py:130-143 | a list of valid dates is sorted exactly when its baselines never decrease; a sorted list has no negative baseline |
| `Datetime.BaselineExample` | pysar/_datetime.py:133-137 | the strings "20060101", "20060201" and "20060301" all parse, and their baselines are 0, 31 and 59 |
| `Strings.Split` | pysar/_datetime.py:98 | `str.split` yields at least one piece, and no piece contains the separator; there are two or more pieces exactly when the separator occurs |
| `Strings.JoinSplit` | pysar/_datetime.py:98 | joining the pieces of a split with the separator gives the original string |
| `Strings.SplitJoin` | pysar/_datetime.py:98 | splitting a join of separator-free pieces gives the pieces back |
| `Strings.LexLeTotal` | pysar/_datetime.py:102 | string comparison is total |
| `Strings.LexLeAntisymmetric` | pysar/_datetime.py:102 | string comparison is antisymmetric |
| `Strings.LexLeTransitive` | pysar/_datetime.py:102 | string comparison is transitive |
| `Strings.LexLeIsNumeric` | pysar/_datetime.py:102 | on digit strings of one length, string order is numeric order |
| `Strings.PadValue` | pysar/_datetime.py:135 | a digit string is its value written back with zero padding, and the value has at most that many digits |
| `Strings.ValuePad` | pysar/_datetime.py:135 | a zero-padded number reads back as the number |
| `Calendar.ParseDate` | pysar/_datetime.py:133-135 | a string parses only when it is 8 digits naming a valid date (years 1-9999, month 1-12, day within the month, leap years counted) |
| `Calendar.FormatThenParse` | pysar/_datetime.py:133-135 | formatting a valid date as `%Y%m%d` and parsing it gives the date back |
| `Calendar.ParseThenFormat` | pysar/_datetime.py:133-135 | a string that parses is the formatting of the date it names |
| `Calendar.DaysBeforeYearStep` | pysar/_datetime.py:136 | each year adds 365 days to the day count, or 366 in a leap year |
| `Calendar.DaysBeforeMonthStep` | pysar/_datetime.py:136 | each month adds its length to the day count of the year, and the twelve months fill the year |
| `Calendar.DayNumberNextDay` | pysar/_datetime.py:136 | the next calendar day has day number one greater |
| `Calendar.DayNumberIncreasing` | pysar/_datetime.py:136 | a chronologically later date has a larger day number |
| `Calendar.StringOrderIsChronological` | pysar/_datetime.py:102 | for strings that parse, string order is chronological order (both directions) |
| `Sorting.Insert` | pysar/_datetime.py:117 | inserting into a sorted list keeps it sorted and adds exactly the one element |
| `Sorting.Sort` | pysar/_datetime.py:117 | the result is sorted and a permutation of the input |
| `Sorting.SortedUnique` | pysar/_datetime.py:117 | two sorted permutations of the same strings are equal, so any correct sort gives `list.sort()`'s result |
| `Sorting.SortedNoDuplicates` | pysar/_datetime.py:100-102 | a sorted list without repeated elements is strictly ascending |

## Left out

- `yyyymmdd2years`, `date_list2vector` and `auto_adjust_xaxis_date` (pysar/_datetime.py:27-42, 147-161, 165-196): floating-point fractional years and matplotlib axis formatting.
- pysar/tsviewer.py in full: plotting, click callbacks, option parsing, HDF5 reads, regression and `.mat` output.
- The file reads: the HDF5 open and group listing in `igram_date_list`, and `open`/`read`/`splitlines` in `read_date_list`. The model starts from the group names and dataset attributes, or from the list of lines.
- The `sys.exit` branches for input that is neither a string nor a list (pysar/_datetime.py:60-62, 75-77). Scalar and list forms are separate members, so such input cannot arise.
- Calendar.ParseDate: `strptime` also accepts shorter fields, such as one-digit months and days ("2006011"). The model parses only the 8-digit form that normalised date lists hold, and treats every other string as a parse error.
- Sorting.Sort: `list.sort()` works in place on the list object, and the model returns a new sequence. The algorithm is not Timsort either. `SortedUnique` shows that the result is the same.
- Datetime.ExpandCentury: requires a non-empty string. The Python code raises IndexError on an empty one, and its only caller passes 6-character strings.
- Datetime.IgramDateList: requires every listed group name to name a group of the file, which any HDF5 file satisfies.

In these cases the model follows what the code does:

- `read_date_list` keeps empty lines and does not validate the dates.
- `igram_date_list` ignores any pieces of `DATE12` after the second.
- A missing `DATE12` attribute is a KeyError, and a `DATE12` without '-' is an IndexError. The model has a separate error for each.

## Findings

| source | as written | input that shows it | evidently intended | confidence | as-written member | corrected member |
|---|---|---|---|---|---|---|
| pysar/_datetime.py:68 | the scalar branch of `yymmdd` slices `date` rather than the argument `dates`. `date` is local to the function because the list branch assigns it, and on this path it is unassigned, so an UnboundLocalError is raised | "20060101" | "060101", the last six characters, as the list branch computes | high; not executed | `Datetime.ToYymmddFailsOnFullDate` | `Datetime.TrimCentury` |
