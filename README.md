# timeline-generator in Dafny

This is a model of the data layer and layout logic of *timeline-generator*, a script that draws stacked charts against one shared time axis:

- Gantt charts of tasks ("dashes" with a start and an end),
- line charts of numeric series,
- labelled events.

Dates are real numbers. A pandas reduction over an empty column is NaN, which compares false against everything. It is modelled as `Dates.Stamp = NaN | Time(t)`.

The model has seven modules:

- `Wrappers`: `Option` and `Result`.
- `Dates`: date stamps and the column `min()`/`max()` reductions.
- `TimelineData`:
  - the `Dash` record and `duration()`;
  - the date bounds of Gantt, linear and event databases;
  - the overlap sweep `GanttDatabase.maxOverlaps()`. It is proved equal to a declarative count, and that count is proved to be the largest number of tasks sharing one instant, for tasks sorted by start that do not end before they start. The source checks neither; for a single task (5,3) the count is 1 although no instant lies inside it.
- `Stacking`: the greedy first-fit packing of a Gantt database's dashes into display rows, then the reversal of the rows. It is proved to be:
  - first-fit,
  - non-overlapping within each row,
  - a partition of the input,
  - bounded by `maxOverlaps()`.
- `DatabaseText`: the text helpers of `Database`.
  - The leading-JSON-block scanner `getJSONString`.
  - The header test `isHeader`. A hand-written field scanner is proved to accept exactly the lines on which the header regular expression finds no match.
- `Serieses`: `Database.parseSerieses`, over the data frame's column names and an already-parsed JSON header.
- `Driver`: the two computations of the chart script that are not rendering.
  - The alternating event-label levels.
  - The fold that sets the shared x range.

## Model

| member | source | states |
|---|---|---|
| TimelineData.Duration | src/timelineData.py:19-27 | the duration added to the start gives the end; it is negative exactly when a dash ends before it starts (no validation) |
| TimelineData.MinStartDate | src/timelineData.py:298-304 | NaN exactly for an empty database, otherwise the least start |
| TimelineData.MaxStartDate | src/timelineData.py:306-312 | NaN exactly for an empty database, otherwise the greatest start |
| TimelineData.MinEndDate | src/timelineData.py:314-320 | NaN exactly for an empty database, otherwise the least end |
| TimelineData.MaxEndDate | src/timelineData.py:322-328 | NaN exactly for an empty database, otherwise the greatest end |
| TimelineData.GanttMinDate | src/timelineData.py:276-284 | a Gantt chart's left edge is the least start (NaN when empty) |
| TimelineData.GanttMaxDate | src/timelineData.py:286-296 | a Gantt chart's right edge is the greatest end, not the greatest start: no task ends after it |
| TimelineData.MinDateIsFirstStart | src/timelineData.py:274-284 | on a database sorted by start, the left edge is the first row's start |
| TimelineData.IndexMinDate | src/timelineData.py:196-202 | NaN exactly for an empty index, otherwise the least index date |
| TimelineData.IndexMaxDate | src/timelineData.py:204-210 | NaN exactly for an empty index, otherwise the greatest index date |
| TimelineData.EventMinDate | src/timelineData.py:366-371 | NaN exactly without events, otherwise the earliest event date |
| TimelineData.EventMaxDate | src/timelineData.py:373-378 | NaN exactly without events, otherwise the latest event date |
| TimelineData.ConcurrentAt | src/timelineData.py:350-353 | the size of the collection after dash `i` lies between 1 (its own end) and `i + 1` |
| TimelineData.MaxConcurrent | src/timelineData.py:348-354 | the running maximum is 0 exactly before any dash and is at most the number of dashes seen |
| TimelineData.MaxConcurrentIsMaximum | src/timelineData.py:348-354 | the running maximum after `n` steps is at least every step's size and equals one of them |
| TimelineData.KeepAtLeast | src/timelineData.py:351 | the numpy mask keeps exactly the end points at or after the start, and never grows the collection |
| TimelineData.KeepAtLeastAppend | src/timelineData.py:351 | masking distributes over concatenation |
| TimelineData.KeepAtLeastTwice | src/timelineData.py:351 | masking with a lower bound, then with a higher one, is the same as masking once with the higher one: ends dropped earlier are never needed |
| TimelineData.KeepAtLeastCount | src/timelineData.py:351 | the masked collection has as many ends as there are earlier dashes ending at or after the start |
| TimelineData.SweepStep | src/timelineData.py:349-352 | on start-sorted dashes, one turn of the loop turns "earlier ends still at or after the previous start" into "earlier ends at or after this start" |
| TimelineData.SweepTurn | src/timelineData.py:349-354 | one turn of the loop on start-sorted dashes: the list it keeps holds `ConcurrentAt(ds, i)` ends, and the list and the maximum stay what the sweep over the tasks seen so far defines |
| TimelineData.MaxOverlaps | src/timelineData.py:342-354 | on a start-sorted database the sweep returns the largest, over dashes `i`, of 1 + the number of earlier dashes ending at or after dash `i`'s start. It is 0 for no dashes and between 1 and n for n dashes |
| TimelineData.TouchingTasksOverlap | src/timelineData.py:351 | tasks (0,2) and (2,4) count as concurrent: the result is 2 |
| TimelineData.Containing | src/timelineData.py:342-347 | the number of tasks whose closed interval holds an instant is at most the number of tasks |
| TimelineData.ContainingAtMostEndsFrom | src/timelineData.py:351 | tasks holding instant `t` all end at or after any earlier instant `s` |
| TimelineData.EndsFromAtMostContaining | src/timelineData.py:351 | when all tasks have started by `t`, those ending at or after `t` all hold `t` |
| TimelineData.ContainingPrefix | src/timelineData.py:342-354 | dropping tasks never increases how many hold an instant |
| TimelineData.ContainingWithinMaxConcurrent | src/timelineData.py:342-354 | no instant is held by more of the first `n` tasks than the running maximum after `n` steps |
| TimelineData.NoInstantExceedsMaxOverlaps | src/timelineData.py:343-346 | no instant is held by more tasks than the count returned |
| TimelineData.ContainingAtStart | src/timelineData.py:350-353 | on sorted, well-formed tasks, every task's step count is at most the number of tasks holding its start |
| TimelineData.MaxOverlapsIsAttained | src/timelineData.py:343-346 | on sorted, well-formed tasks, some instant is held by exactly the count returned: it is "the maximum number of tasks that take place at the same time" |
| Dates.ColumnMin | src/timelineData.py:304 | a column's `min()`: NaN exactly when empty, otherwise an element no other element is below |
| Dates.ColumnMax | src/timelineData.py:328 | a column's `max()`: NaN exactly when empty, otherwise an element no other element is above |
| Stacking.Select | src/timeline.py:113-121 | a lane never holds more dashes than have been placed |
| Stacking.LastIn | src/timeline.py:116 | the index of the last dash placed in a lane, which is a dash of that lane; -1 when the lane is empty |
| Stacking.LaneCount | src/timeline.py:120-121 | every lane used is below the number of stacks, and there are no stacks exactly when there were no dashes |
| Stacking.Reverse | src/timeline.py:123 | `reverse()` puts stack `k` at position `n - 1 - k`, keeping the number of stacks |
| Stacking.SelectExtend | src/timeline.py:117-121 | placing a dash in lane `l` appends it to lane `l` only, and makes it that lane's last dash |
| Stacking.SelectLast | src/timeline.py:116 | a lane is empty exactly when it has no last dash; otherwise its last element is that dash |
| Stacking.FirstFitLanesNonOverlapping | src/timeline.py:115-117 | in a first-fit placement, consecutive dashes of a lane do not overlap: each ends by the time the next starts |
| Stacking.AllLanesNonOverlapping | src/timeline.py:115-117 | every lane of a first-fit placement is non-overlapping |
| Stacking.FlattenUpdate | src/timeline.py:117 | appending a dash to one stack adds exactly that dash to the stacks' contents |
| Stacking.FlattenAppend | src/timeline.py:121 | opening a new stack adds exactly its dashes to the stacks' contents |
| Stacking.FlattenReverse | src/timeline.py:123 | reversing the stacks keeps their contents |
| Stacking.CountEndsFromIsCardinality | src/timelineData.py:351 | the masked count is the size of the set of earlier dashes ending at or after the start |
| Stacking.LastDashesDistinct | src/timeline.py:115-121 | distinct lanes have distinct last dashes |
| Stacking.RunningLanesCounted | src/timeline.py:115-121 | the lanes a dash could not join all still run at its start, so there are no more of them than ends the sweep keeps for it |
| Stacking.LaneCountWithinOverlaps | src/timeline.py:115-121 | first-fit never uses more stacks than the sweep's running maximum |
| Stacking.StackDashes | src/timeline.py:110-123 | the packing is first-fit; stack `k` is lane `n-1-k` in input order; every stack is non-empty and non-overlapping; the stacks hold exactly the input dashes; there are at most `maxOverlaps()` stacks. The chart draws one row per stack (src/timeline.py:132-135), and its height share is proportional to `maxOverlaps()` (src/timeline.py:84-87), so the rows drawn never outnumber the rows the chart was given room for |
| Stacking.BuildStacks | src/timeline.py:110-121 | before the reversal: first-fit, stack `k` holds lane `k` and is non-empty, and the stacks are a permutation of the input |
| Stacking.Fits | src/timeline.py:116 | the fit test: the stack is empty, or its last dash ends by the dash's start |
| Stacking.FirstFitting | src/timeline.py:115-119 | the search stops at the first stack the dash fits, or past the end when none fits |
| Stacking.ReversalKeepsLanes | src/timeline.py:123 | after the cosmetic reversal, the stacks are still the lanes (in reverse order), still non-overlapping, still a permutation of the input, and still no more than `maxOverlaps()` |
| Stacking.ReversedStacksAreLanes | src/timeline.py:123 | after reversal, stack `k` is lane `n-1-k` |
| Stacking.ReversedStacksNonOverlapping | src/timeline.py:123 | after reversal, every stack is non-empty and non-overlapping |
| Stacking.Placement | src/timeline.py:114-121 | placing one dash in the first fitting stack, or in a new stack, keeps the stacks equal to a first-fit lane assignment |
| Stacking.StackTops | src/timeline.py:116 | the last dash of each stack is the last dash placed in that lane |
| Stacking.PlacementIsFirstFit | src/timeline.py:115-121 | the stack chosen by the search is the first-fit lane |
| Stacking.PlacementAddsDash | src/timeline.py:117-121 | one placement adds exactly the placed dash to the stacks' contents |
| Stacking.PlacementKeepsStacks | src/timeline.py:117-121 | one placement keeps stack `k` equal to lane `k`, and keeps the stack count equal to the lane count |
| Stacking.PrefixGrows | src/timeline.py:113 | the dashes seen grow by one per turn and end as the whole database |
| DatabaseText.GetJsonString | src/timelineData.py:109-125 | no block exactly when the file is empty or does not start with `{`. A returned block is a prefix of the file that starts with `{`, returns to depth 0 only at its end, and has positive depth at every shorter prefix. The scan is unterminated only when every prefix has positive depth |
| DatabaseText.BalancedPrefixUnique | src/timelineData.py:111-122 | no prefix of the file other than the returned block is a balanced block |
| DatabaseText.UnterminatedHasNoBlock | src/timelineData.py:114-120 | when the scan never terminates, no prefix of the file is a balanced block |
| DatabaseText.LeadingDigits | src/timelineData.py:184 | the digits at the start of a string, followed by a non-digit or the end |
| DatabaseText.LeadingDigitsIsLongest | src/timelineData.py:184 | no longer run of digits starts the string |
| DatabaseText.IsNumberIffShape | src/timelineData.py:184 | the scanner's number test accepts exactly `-?[0-9]+\.?[0-9]*` |
| DatabaseText.NumberHasShape | src/timelineData.py:184 | every string the number test accepts has the regular shape |
| DatabaseText.ShapeIsNumber | src/timelineData.py:184 | every string of the regular shape passes the number test |
| DatabaseText.NumberChars | src/timelineData.py:184 | a number contains no comma, tab or newline |
| DatabaseText.NextDelim | src/timelineData.py:184 | the next comma or tab at or after a position, with none skipped |
| DatabaseText.NumberBeforeDelim | src/timelineData.py:184 | a number starting in a field ends at or before the field's delimiter |
| DatabaseText.FieldMatchSound | src/timelineData.py:184 | a numeric field is a match of one of the regex's three alternatives |
| DatabaseText.LeadingMatch | src/timelineData.py:184 | a match of the first alternative makes the first field numeric |
| DatabaseText.DelimitedMatch | src/timelineData.py:184 | a match of the second or third alternative makes that field numeric |
| DatabaseText.FieldMatchComplete | src/timelineData.py:184 | a match found within a field makes that field numeric |
| DatabaseText.ScanSound | src/timelineData.py:184-186 | when the scanner finds a numeric field, the regex search finds a match |
| DatabaseText.ScanComplete | src/timelineData.py:184-186 | when the regex search finds a match, the scanner finds a numeric field |
| DatabaseText.IsHeaderIffNoMatch | src/timelineData.py:182-186 | a line is a header exactly when the regex search finds no match |
| DatabaseText.FieldNumeric | src/timelineData.py:184 | the field starting at a position is a number the regex would find there: the first field only when a delimiter follows it, the last only when a delimiter precedes it (a final newline aside), any middle field always |
| DatabaseText.NumericField | src/timelineData.py:184-186 | some field from a position on is numeric, scanning the fields left to right |
| DatabaseText.IsHeader | src/timelineData.py:185-186 | a line is a header unless one of its fields is numeric; `IsHeaderIffNoMatch` proves this is exactly "the regex search finds nothing" |
| DatabaseText.SingleColumnIsHeader | src/timelineData.py:182-186 | a line with no comma or tab is always a header, even a bare number |
| Serieses.BoundsOf | src/timelineData.py:138-159 | an axis object's bounds: a `KeyError` exactly when `"min"` is given without `"max"`; otherwise max and interval as given, and a min bound that is set exactly when `"min"` is given and then equals the max bound |
| Serieses.AxisSerieses | src/timelineData.py:143-168 | the series for an axis's `"columns"` entries in order, or the error for the first entry naming a missing column; its properties are `AxisSeriesesFollowEntries`, `AxisSeriesesFailure` and `FailureStays` |
| Serieses.Remaining | src/timelineData.py:172-179 | the final loop's series, one primary solid series per column not yet added, in column order; its properties are `RemainingColumns` |
| Serieses.AxisOf | src/timelineData.py:134-170 | one axis key: no bounds and no series when absent, otherwise `BoundsOf` then `AxisSerieses`, failing with the first error |
| Serieses.ParseSerieses | src/timelineData.py:128-179 | the parse yields `Expected`. That is: the primary axis's series, then the secondary axis's, then every column neither axis named; or the first `KeyError` |
| Serieses.ParseAxis | src/timelineData.py:134-170 | one axis object fails exactly when its description fails, with the same error. On success it appends that axis's series and records their names |
| Serieses.FailureStays | src/timelineData.py:144-151 | once an entry names a missing column, later entries do not change the error |
| Serieses.AxisSeriesesFollowEntries | src/timelineData.py:143-151 | an axis yields one series per entry, in order: the entry's name, the axis's flag, and dashed exactly when `style` is `"dashed"`. Every name is a column |
| Serieses.AxisSeriesesLength | src/timelineData.py:143-151 | an axis yields one series per entry |
| Serieses.AxisSeriesesFailure | src/timelineData.py:146 | an axis fails exactly when some entry names no column, and the error names the first such entry |
| Serieses.AxisSeriesesInColumns | src/timelineData.py:146 | every series an axis yields is a column of the data frame |
| Serieses.AxisNames | src/timelineData.py:145-168 | the names an axis records in the added-columns list are its entries' names, in order |
| Serieses.NamesAppend | src/timelineData.py:151-168 | names recorded for the primary series, then for the secondary ones, are the two name lists one after the other |
| Serieses.RemainingColumns | src/timelineData.py:172-179 | the last loop adds exactly the columns not yet added, as primary solid series. Without a JSON header it adds every column, in order |
| Serieses.NoHeaderPlotsEveryColumn | src/timelineData.py:128-179 | without a JSON header, every column is plotted once, in order, on the primary axis, solid, and no bounds are set |
| Serieses.NamedNames | src/timelineData.py:145-168 | the names recorded after the two axes are the primary entries' names, then the secondary entries' names |
| Serieses.PrimaryEntriesFirst | src/timelineData.py:143-151 | a successful parse starts with one series per primary entry, in order, on the primary axis, dashed exactly when styled `"dashed"` |
| Serieses.SecondaryEntriesNext | src/timelineData.py:160-168 | the secondary entries' series come next, in order, on the secondary axis, dashed exactly when styled `"dashed"` |
| Serieses.SecondaryRun | src/timelineData.py:160-168 | series built from the secondary entries and placed after a prefix follow those entries one for one, on the secondary axis |
| Serieses.OtherColumnsLast | src/timelineData.py:172-179 | every later series is a primary solid series for a column that neither axis names |
| Serieses.EveryColumnPlotted | src/timelineData.py:128-179 | after a successful parse every column has a series, and every series is a column |
| Serieses.NamedColumnsPlotted | src/timelineData.py:143-179 | with a JSON header, every series plots a column of the data frame |
| Serieses.OtherColumnsPlotted | src/timelineData.py:172-179 | with a JSON header, every column of the data frame gets a series |
| Serieses.MinReadFromMax | src/timelineData.py:138-159 | when an axis gives `"min"`, the min bound is the `"max"` value, as the code reads it |
| Serieses.ParseFailsIff | src/timelineData.py:128-170 | with a JSON header, the parse fails exactly when an axis gives `"min"` without `"max"`, or names a column the data frame lacks |
| Driver.Tile | src/timeline.py:172 | `numpy.tile` yields `k` copies of the pattern |
| Driver.TileTwoAt | src/timeline.py:172 | element `i` of a tiled two-element pattern is pattern element `i % 2` |
| Driver.Levels | src/timeline.py:172 | there are `numItems` levels: 2 at even positions and 1 at odd ones |
| Driver.LevelsAlternate | src/timeline.py:172 | neighbouring event labels never share a height |
| Driver.Bases | src/timeline.py:199 | the bases are the Gantt, then the linear, then the event databases, in order. Area databases are not among them |
| Driver.MinDateOf | src/timeline.py:200-201 | `base.minDate()`: NaN exactly when the base has no dates, otherwise its least date (least start for a Gantt database) |
| Driver.MaxDateOf | src/timeline.py:202-203 | `base.maxDate()`: NaN exactly when the base has no dates, otherwise its greatest date (greatest end for a Gantt database) |
| Driver.DateRange | src/timeline.py:197-203 | both bounds stay `None` exactly when there are no bases. When the first base is empty the result is NaN. Otherwise the left edge is the least of the bases' `minDate()` values and the right edge the greatest of their `maxDate()` values; a later empty base's NaN never wins |
| Driver.FoldMinStep | src/timeline.py:200-201 | one turn of the loop keeps the left edge folded over the bases seen so far, NaN comparisons included |
| Driver.FoldMaxStep | src/timeline.py:202-203 | one turn of the loop keeps the right edge folded over the bases seen so far, NaN comparisons included |
| Driver.RangeCoversEveryDate | src/timeline.py:197-206 | when the first base has dates, the shared x range covers every Gantt start and end, every index date and every event of every base; later empty bases do not matter |

## Left out

- Command-line parsing, `print`/`exit`, and all matplotlib rendering are not modelled. This covers subplot and grid layout, bars, text, stems, annotations, stack plots, legends and axis limits (src/timeline.py:10-55, 79-95, 127-193, 205-208). They are I/O.
- File and pandas I/O are not modelled: `open`/`seek`/`readline`, `read_csv`, `set_index`, `itertuples`, numpy arrays. Databases are given as sequences.
  - Which line `isHeader` sees after `getJSONString` has moved the read head is an I/O matter. `IsHeader` is stated for any given line.
- `sort_values` is not modelled. It is not a stable sort, so the model never relies on a tie order. A `GanttDatabase` is sorted by start as a precondition (`TimelineData.Valid`).
- Height ratios (src/timeline.py:84-93) are floating-point layout and are not modelled. They divide by zero when every Gantt database is empty. Each ratio is at most 1 because `maxGantt` is the largest `maxOverlaps()`. `Stacking.StackDashes` proves that the rows drawn for a Gantt chart never outnumber its `maxOverlaps()`, the quantity its height share is proportional to.
- src/colorGenerator.py is not modelled. It is driven by Python's seeded `random`, a foreign library.
- The root-level timeline.py and timelineData.py are a superseded script and a file-bound class. They are not part of this model.
- src/tests.py is not part of this model. It builds databases through an API that the modelled code does not have.
- `Dash.__repr__`, `Event` and `Series` are string formatting and plain data holders; only the `Series` fields the parse decides (name, axis, dashed) are modelled.
- `json.loads` is not modelled; the header reaches the model already parsed as a `Config`. Only the keys the parse reads are modelled, and an entry's `"name"` is taken to be present: a missing `"name"` key (another `KeyError`) is not modelled.
- Serieses.BoundsOf: bound values are taken to be numbers. A JSON `null` bound is not modelled: `"max": null` with `"min"` given yields no bounds and no `KeyError` in the source, while an axis bound here is either absent or a number, so that input cannot be represented. Non-numeric bound values are not modelled either.
- Serieses.ParseSerieses: returns the series and bounds as a record instead of assigning attributes of the database object. On a `KeyError` the model returns the error and drops the partly filled object, which the source abandons with the exception. The column data that each `Series` copies from the data frame is not modelled.
- DatabaseText.GetJsonString: the source loops forever when the braces never balance, because `read(1)` returns `""` at end of file. The model returns `Unterminated` instead and states that every prefix has positive depth in that case.
- NaN inside a data column, pandas `Timestamp`/`NaT`, and floating-point rounding are not modelled. Dates are exact reals; an empty column's reduction is the only NaN.
