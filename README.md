# Performance-counter log reconciliation and Pareto filtering

This project is a Dafny model of three small data-reconciliation tools that post-process
`perf stat -x;` logs of benchmark runs:

- **`tools/parse_csv.py`, the two-stream merge.**
  - The counter log is read into one record per run of consecutive lines with equal
    timestamps. Each record holds `ts` and `t_diff`, the four context fields of the run
    (`bench`, `ht`, `cpus`, `freq`) and the counters of its lines. A group that holds a
    `<not counted>` reading is dropped, with a warning, once the next timestamp arrives.
  - The energy log is matched against those records with a sticky cursor
    (`find_perf_counter`) under a strict 0.02 s tolerance. A reading is assigned to the
    matched record. On a duplicate name the cursor is pushed to the next record, or, when
    no later record fits, the reading is summed into the existing field.
  - The records are written as a table: a header, then one row per record. When appending
    to a file that already has a header line, that line fixes the columns.
- **`tools/pareto.py`, the Pareto filter.** Objectives are given as `<field`
  (minimise) or `>field` (maximise). A row is printed unless some row that differs from it
  in value is at least as good on every objective.
- **`parse_csv.py`, the single-stream predecessor.** It groups one log by consecutive
  equal timestamps and prints the four context columns, then the first record's keys.

## The model

### Modules

- `Strings`: Python's `strip`, `split` and `join` on strings, and the first line of a file.
- `DataModel`: a Python dict is a `Record`, a key-order sequence (insertion order) plus a
  map. Values are numbers (`float`) or strings. The module also has the opening dict of a
  group, samples, readings, warnings and the Python exceptions (`Crash`).
- `LogLines`: the line filter (comments and empty lines are skipped) and field extraction
  shared by every parser.
- `Grouping`: the runs of consecutive equal timestamps (`Runs`) and the record a run
  fills (`GroupRecord`). This is the reference description that both grouping loops are
  proved against.
- `PrimaryIngest`, `EnergyMatch` and `TableOutput`: the three stages of
  `tools/parse_csv.py`.
- `Pareto`: `tools/pareto.py`.
- `SingleStream`: `parse_csv.py`.

### How each stage is modelled

- **Loops.** Every loop of the sources is a `method` with a loop: a `for` loop over the
  lines or rows, or a `while` loop where the source returns or breaks early
  (`EnergyMatch.FindPerfCounter`, `Pareto.Eliminated`). The loop's variables are the
  method's locals, and a loop body with several steps is a method of its own. Each loop
  method `ensures` that its result equals a fold of the body over the input (`IngestAll`,
  `MergeAll`, `GroupAll`, `Rows`, `Kept`, …). Lemmas then tie each fold to an independent
  description: the runs of the stream, the dominance relation, or the cells of the row.
- **Float conversions.** `float(...)` is a parameter `toReal: string -> real`, and
  `str(...)` of a number is a parameter `showNum: real -> string`.
- **Exceptions.** A Python exception raised on the way is an `Err` result: an
  `IndexError` on an empty record list, a `KeyError` on a missing key, a `TypeError` when
  an energy value is added to a string, and a `ValueError` from splitting by an empty
  separator. What is printed is the list of output lines. Warnings are `Warning` values,
  collected in order, without their message text.

### Behaviour of the code worth knowing

- **Records per run.** The code makes one record per run of equal consecutive
  timestamps, not one per distinct timestamp: a timestamp that comes back later opens
  another record (`Grouping.Runs`).
- **Duplicate readings.** The comment at tools/parse_csv.py:136 says to try whether the
  next record fits as well. When that forced search succeeds, the code only moves the
  cursor: the reading is stored nowhere, with no warning
  (`EnergyMatch.MatchForcedMove`, `EnergyMatch.ForcedMoveExample`).
- **The last group.** The last group is never checked for uncounted readings. It stays in
  the output, and its names are left in `err_names` (`PrimaryIngest.Expected`).
- **Row identity.** The Pareto filter compares dict values (`d != r`,
  tools/pareto.py:32), not identities. So two rows with equal values never eliminate each
  other, while any other row that ties on every objective does. Because dominance is
  non-strict, two rows that differ only outside the objectives and tie on every objective
  eliminate each other, and the front of a non-empty table can be empty
  (`Pareto.TiedRowsEmptyFront`).
- **Malformed lines.** A malformed line is not skipped: the code raises an exception, for
  a line with fewer than four fields or a number it cannot convert. See "Left out".

## Model

| member | source | states |
|---|---|---|
| Strings.Strip | tools/parse_csv.py:92-94 | `strip()` is the slice of the string left once its leading and trailing whitespace is cut off: the cut-off ends are all whitespace and neither end of the result is |
| Strings.Join | tools/parse_csv.py:19 | `sep.join(parts)` is defined as Python's join: the parts in order with `sep` between neighbours; it has no contract of its own and is pinned by `Split` (whose parts join back to the string), `SplitJoin` and `SplitUnique` |
| Strings.Split | tools/parse_csv.py:91 | `split` gives at least one part, the parts joined by the separator are the string, and no part contains the separator |
| Strings.SplitLeftmost | tools/parse_csv.py:91 | `split` cuts at the leftmost occurrence of the separator each time, as Python's `str.split` does |
| Strings.SplitUnique | tools/parse_csv.py:158 | the parts of `split` are the only way to write a string as a join of separator-free parts cut at the leftmost occurrence each time, for separators of any length |
| Strings.SplitOverlapExample | tools/parse_csv.py:158 | occurrences of a longer separator are taken from the left without overlap: `"aaa".split("aa")` is `["", "a"]` |
| Strings.SplitJoin | tools/parse_csv.py:158 | splitting a join by a one-character separator that occurs in no part gives the parts back |
| Strings.FirstLine | tools/parse_csv.py:155 | `readline().rstrip('\n')` is the longest prefix without a newline, and is followed by one when shorter than the text |
| Strings.FirstLineOf | tools/parse_csv.py:155 | the first line of `line + "\n" + rest` is `line` |
| DataModel.StoreSpec | tools/parse_csv.py:109 | assigning `d[k] = v` sets exactly key `k`, keeps every other key and value, and appends `k` to the key order only when it is new |
| DataModel.Opened | tools/parse_csv.py:97 | the opening dict of a group is timed with the group's timestamp |
| DataModel.OpenedValid | tools/parse_csv.py:97 | the opening dict's key order is `ts, t_diff, bench, ht, cpus, freq`, or `ts, t_diff` in the single-stream parser |
| DataModel.OpenedFields | tools/parse_csv.py:97-104 | the opening dict maps `ts` and `t_diff` to the timestamp and its difference, and the context keys to the context strings |
| LogLines.CounterSample | tools/parse_csv.py:91-94 | a counter line is cut at every `;` into at least four fields holding no `;`; the sample's timestamp is `float` of the stripped first field, its reading the stripped second field and its name the fourth field as written |
| LogLines.EnergyReading | tools/parse_csv.py:124-127 | an energy line is cut the same way; timestamp and reading are `float` of the stripped first and second fields, and the name is the fourth field as written |
| LogLines.CounterSamplesAppend | tools/parse_csv.py:82-94 | the samples of a concatenation of line sequences are the samples of each part, in order |
| LogLines.EnergyReadingsAppend | tools/parse_csv.py:115-127 | the readings of a concatenation of line sequences are the readings of each part, in order |
| LogLines.CounterSamplesSnoc | tools/parse_csv.py:83-94 | a comment or empty line adds no sample; any other line adds exactly its own sample at the end |
| LogLines.EnergyReadingsSnoc | tools/parse_csv.py:116-127 | a comment or empty line adds no reading; any other line adds exactly its own reading at the end |
| Grouping.RunsShape | tools/parse_csv.py:96-105 | the runs are non-empty, each holds one timestamp, neighbouring runs differ in timestamp, and the last run ends with the last sample |
| Grouping.RunsConcat | tools/parse_csv.py:96-105 | the runs, concatenated, are the stream itself: no sample is lost, duplicated or reordered |
| Grouping.RunsCount | parse_csv.py:37-42 | the number of runs is one more than the number of timestamp changes between neighbouring samples (zero for an empty stream) |
| Grouping.RunsJoin | tools/parse_csv.py:99 | a sample with the last timestamp extends the last run |
| Grouping.RunsOpen | tools/parse_csv.py:99-105 | a sample with another timestamp opens a run of its own |
| Grouping.GroupRecordSpec | tools/parse_csv.py:97-109 | a run's record starts with the opening keys, keeps each opening field that no sample names, holds each name with the value of its last line in the run, and has no other field |
| Grouping.GroupRecordTimes | tools/parse_csv.py:97-104 | a run's record holds its run's timestamp as `ts` and the distance to the previous run (the timestamp itself for the first) as `t_diff`, unless a counter is itself named so |
| Grouping.FillLast | parse_csv.py:43 | within a run, the last line of a name wins |
| Grouping.FillUntouched | parse_csv.py:43 | a field that no line of the run names keeps its value |
| Grouping.FillDomain | parse_csv.py:43 | the fields after filling are the earlier fields plus the names of the run |
| EnergyMatch.Scan | tools/parse_csv.py:31-35 | the forward scan returns the first index within tolerance at or after its start, or none when there is none |
| EnergyMatch.Find | tools/parse_csv.py:25-35 | an unforced search returns the cursor when it is within tolerance; otherwise (and always when forced) it returns the smallest later index within tolerance, and the MatchError happens exactly when no later index fits; every result is a valid index |
| EnergyMatch.FindPerfCounter | tools/parse_csv.py:25-35 | the early-return search computes `Find` |
| EnergyMatch.AddInto | tools/parse_csv.py:141 | `values[last_val][name] += value` succeeds exactly when the field holds a number, then holds the sum and keeps the key order; on a string field it raises a TypeError |
| EnergyMatch.Match | tools/parse_csv.py:129-143 | one pass raises an IndexError when there are no records and no exception but a TypeError otherwise; `MatchFrame` and the case lemmas below state each outcome |
| EnergyMatch.ToleranceBoundaryExample | tools/parse_csv.py:27-32 | with the 0.02 s tolerance of tools/parse_csv.py:112, a record at 10 s matches a reading at 10.019 s but not one at 10.021 s, and the test is strict: a record at 0 s does not match a reading at exactly 0.02 s (these facts hold in IEEE doubles too) |
| EnergyMatch.MatchFrame | tools/parse_csv.py:129-143 | a pass keeps the number of records, moves the cursor only forward, and changes no record except the one under the new cursor |
| EnergyMatch.MatchUnmatched | tools/parse_csv.py:129-133 | a reading no record from the cursor on is close to adds a warning and changes nothing else |
| EnergyMatch.MatchNewName | tools/parse_csv.py:142-143 | a reading whose name is new to the matched record sets exactly that field, appends its name to the key order, and changes no other record |
| EnergyMatch.MatchForcedMove | tools/parse_csv.py:135-138 | on a duplicate name with a later record within tolerance, the cursor moves to the first such record after the matched one (the forced `find_perf_counter`), no record changes and no warning is added |
| EnergyMatch.MatchSummed | tools/parse_csv.py:139-141 | on a duplicate name with no later record in reach, the reading is added into the numeric field at the unchanged cursor with a warning, or a TypeError is raised when the field holds a string |
| EnergyMatch.MatchOtherFields | tools/parse_csv.py:135-143 | a pass changes no field whose name is not the reading's, and keeps every record's key order as a prefix |
| EnergyMatch.MergeAll | tools/parse_csv.py:115-143 | the energy loop keeps the number of records, and its cursor never goes back |
| EnergyMatch.MergeAllOtherFields | tools/parse_csv.py:115-143 | over the whole log, a field that no reading names (such as `ts` and `t_diff`) keeps its value in every record |
| EnergyMatch.MergeAllErr | tools/parse_csv.py:115-143 | an exception ends the loop: later readings change nothing |
| EnergyMatch.MergeAllStops | tools/parse_csv.py:115-143 | once the readings of the first lines raise an exception, the result of the whole log is that exception |
| EnergyMatch.MatchReading | tools/parse_csv.py:129-143 | the loop body on the loop's variables computes one pass of `Match` |
| EnergyMatch.MergeEnergy | tools/parse_csv.py:113-143 | the energy loop over the lines, with its cursor starting at 0, computes `MergeAll` over the readings of the data lines |
| EnergyMatch.SummedDuplicateExample | tools/parse_csv.py:135-141 | a second reading with no other record in reach is summed (3 + 4 = 7) with a warning naming both timestamps |
| EnergyMatch.ForcedMoveExample | tools/parse_csv.py:135-138 | a second reading with the next record in reach moves the cursor there and is stored nowhere |
| PrimaryIngest.Advance | tools/parse_csv.py:96-105 | on a new timestamp there is an open record afterwards, and `last_ts` is that timestamp |
| PrimaryIngest.Step | tools/parse_csv.py:96-109 | after a line the state is coherent, and `last_ts` is the line's timestamp |
| PrimaryIngest.StepContinues | tools/parse_csv.py:106-109 | a line with the current timestamp stores its reading into the last record and notes its name when uncounted |
| PrimaryIngest.StepOpens | tools/parse_csv.py:99-109 | a line with a new timestamp drops the last record when names are pending, clears them, and appends a new record whose `t_diff` is measured from the previous timestamp |
| PrimaryIngest.IngestAll | tools/parse_csv.py:82-109 | the counter loop as a fold: `last_ts` is unset exactly for an empty stream and is the last sample's timestamp otherwise, and there are never more records than samples; `IngestMatchesRuns` ties it to the runs |
| PrimaryIngest.ClosedDroppedCount | tools/parse_csv.py:99-105 | every closed group either keeps its record or gives one warning |
| PrimaryIngest.ClosedClean | tools/parse_csv.py:99-105 | closed groups without uncounted readings are all kept, each as its run's record, in order |
| PrimaryIngest.DroppedClean | tools/parse_csv.py:100-103 | closed groups without uncounted readings give no warning |
| PrimaryIngest.UncountedNamesEmpty | tools/parse_csv.py:106-107 | a run leaves no pending names exactly when none of its readings is `<not counted>` |
| PrimaryIngest.IngestMatchesRuns | tools/parse_csv.py:78-109 | the loop leaves exactly the run-based description: the closed groups without uncounted readings, then the last group's record, a warning per dropped group, the last timestamp, and the last group's uncounted names |
| PrimaryIngest.IngestShape | tools/parse_csv.py:78-109 | records plus warnings number the runs, the last record is the last run's record, unchecked, and `err_names` holds that run's uncounted names |
| PrimaryIngest.IngestClean | tools/parse_csv.py:78-109 | a stream without uncounted readings gives one record per run, each the run's record, and no warning |
| PrimaryIngest.MiddleRunDropped | tools/parse_csv.py:99-103 | of three groups, an uncounted middle one is removed with a warning naming its names and timestamp, and the last is kept whatever it holds |
| PrimaryIngest.DroppedGroupExample | tools/parse_csv.py:99-105 | at 1, 2 and 3 s with the reading at 2 s uncounted, two records remain, the warning names `a` at 2 s, and the third record's `t_diff` is 1 s, measured from the dropped group |
| PrimaryIngest.IngestSample | tools/parse_csv.py:96-109 | the loop body on the loop's variables computes one `Step` |
| PrimaryIngest.IngestCounters | tools/parse_csv.py:78-109 | the counter loop over the log's lines computes the run-based description of its samples |
| TableOutput.RowCells | tools/parse_csv.py:11-17 | one cell per header, in header order: the value's `str` when the record has the key, `''` otherwise |
| TableOutput.OutputRow | tools/parse_csv.py:11-19 | `output_row` builds the header-ordered cells and joins them by the separator |
| TableOutput.RowRoundTrip | tools/parse_csv.py:11-19 | a row whose cells avoid the one-character separator splits back into exactly those cells |
| TableOutput.SelectColumns | tools/parse_csv.py:147-159 | a header is written exactly when there is no existing file or its first line is empty; the columns are then the first record's keys, and otherwise they are separator-free parts, cut at the leftmost occurrence each time, that join back into that first line; splitting by an empty separator is the only error |
| TableOutput.ChosenColumnsAreSplit | tools/parse_csv.py:157-159 | columns read from an existing header are exactly `header.split(sep)`, for any separator length |
| TableOutput.ChooseColumns | tools/parse_csv.py:147-159 | the column-selection code computes `SelectColumns` |
| TableOutput.HeaderLines | tools/parse_csv.py:175-176 | `output_headers` writes one line exactly when a header is needed |
| TableOutput.RowsAt | tools/parse_csv.py:177-178 | the row of record `k` is that record's cells joined by the separator |
| TableOutput.OutputRows | tools/parse_csv.py:177-178 | the row loop writes the rows of the records in order |
| TableOutput.Table | tools/parse_csv.py:146-178 | the table fails with an IndexError exactly when there are no records, and otherwise only with the ValueError of splitting an existing header by an empty separator; `TableShape` gives its lines |
| TableOutput.WriteTable | tools/parse_csv.py:146-178 | the output step computes the full table: the IndexError on no records, the column error, or the header followed by the rows |
| TableOutput.TableShape | tools/parse_csv.py:146-178 | a written table has the header when one is needed, then exactly one row per record, each the record's cells for the chosen columns |
| TableOutput.AppendReadsHeaderBack | tools/parse_csv.py:151-159 | appending to a file whose first line is a header joined by the separator reuses exactly those columns and writes no header |
| TableOutput.AppendedRowExample | tools/parse_csv.py:11-19 | under an appended file's columns `a, b, d`, a record with keys `b, a, c` is written as `1, 2, ''`: the file's column order, `''` for the missing `d`, and the extra `c` not written |
| Pareto.CheckObjectives | tools/pareto.py:10-16 | fewer than two objectives, an empty objective (IndexError) and an objective without `<` or `>` are rejected, each exactly when it applies, and the list is accepted otherwise |
| Pareto.RejectedBeforeData | tools/pareto.py:10-16 | a rejected objective list gives the same failure whatever the data |
| Pareto.BetterAspect | tools/pareto.py:18-21 | equal values are always at least as good, and a row that is not at least as good is strictly worse in the aspect's direction: smaller under `>`, larger otherwise |
| Pareto.Better | tools/pareto.py:23 | rows that agree on every objective are each at least as good as the other; `BetterReflexive` and `BetterTransitive` make it a preorder |
| Pareto.BetterFreqTps | tools/pareto.py:18-23 | under `<freq >tps` a row is at least as good exactly when its `freq` is at most and its `tps` at least the other's |
| Pareto.BetterReflexive | tools/pareto.py:18-23 | every row is at least as good as itself |
| Pareto.BetterTransitive | tools/pareto.py:18-23 | "at least as good" is transitive |
| Pareto.Eliminated | tools/pareto.py:31-32 | the inner loop breaks exactly when some row that differs in value from the row is at least as good |
| Pareto.Kept | tools/pareto.py:30-34 | the filter loop as a fold keeps at most the rows it is given; `KeptAtMember` and `KeptSubsequence` say which, and in what order |
| Pareto.Front | tools/pareto.py:30-34 | the front has at most as many rows as the data; `FrontMember` characterises its rows |
| Pareto.KeptAtMember | tools/pareto.py:30-34 | a row's index is printed exactly when no differing row of the data dominates it |
| Pareto.KeptSubsequence | tools/pareto.py:30-34 | the printed rows are the input rows at strictly increasing indices, so each row is printed at most once and in input order |
| Pareto.FrontMember | tools/pareto.py:30-34 | a row is in the front exactly when it is a row of the data and no row that differs from it in value is at least as good |
| Pareto.DuplicatesTogether | tools/pareto.py:32 | rows with equal values are kept or dropped together |
| Pareto.Values | tools/pareto.py:34 | `r.values()` gives one cell per key, in key order |
| Pareto.Output | tools/pareto.py:10-34 | a rejected objective list is the failure whatever the data; otherwise the run fails exactly when the table has no rows, with an IndexError, and a printed run starts with the first row's keys |
| Pareto.Lines | tools/pareto.py:30-34 | one printed line per row, in order |
| Pareto.Extract | tools/pareto.py:10-34 | the program, with I/O left out, prints what `Output` describes: the rejection, the IndexError of an empty table, or the first row's keys and then the front |
| Pareto.OutputShape | tools/pareto.py:29-34 | a printed run has the header of the first row's keys and then one line per row of the front, at most as many as the input has rows |
| Pareto.WorkedExample | tools/pareto.py:18-34 | with `<freq >tps` and rows (1000, 50), (1000, 40) and (800, 45) the output is the header, the first row and the third row |
| Pareto.WorkedExampleFront | tools/pareto.py:30-34 | the front of the worked example is its first and third rows |
| Pareto.ExampleBEliminated | tools/pareto.py:31-32 | in the worked example the second row is eliminated by the first |
| Pareto.TiedRowsEmptyFront | tools/pareto.py:30-34 | two rows that tie on every objective but differ elsewhere eliminate each other, leaving an empty front |
| SingleStream.Stripped | parse_csv.py:22 | every line is stripped |
| SingleStream.GroupStep | parse_csv.py:37-43 | after a line the last timestamp is the line's timestamp, and at most one record was added |
| SingleStream.GroupAll | parse_csv.py:37-43 | the grouping loop as a fold: `last_ts` is unset exactly for an empty stream and is the last sample's timestamp otherwise, with at least one record and at most one per sample; `GroupMatchesRuns` ties it to the runs |
| SingleStream.GroupMatchesRuns | parse_csv.py:37-43 | the grouping loop leaves exactly one record per run of equal consecutive timestamps, each the record that run fills |
| SingleStream.RecordCount | parse_csv.py:37-42 | the number of records is the number of runs, one more than the number of timestamp changes |
| SingleStream.RunRecord | parse_csv.py:38-43 | a run's record holds `ts`, and a `t_diff` that is the timestamp for the first run and the distance to the previous run otherwise; each name has the value of its last line in the run; there is no other field |
| SingleStream.RecordsAreRuns | parse_csv.py:37-43 | record `k` of the loop is the record of run `k` |
| SingleStream.GroupSample | parse_csv.py:37-43 | the loop body on the loop's variables computes one `GroupStep` |
| SingleStream.GroupLines | parse_csv.py:21-43 | the parsing loop computes one record per run of the samples of the stripped data lines |
| SingleStream.StreamRow | parse_csv.py:49-51 | the row cells exist exactly when the record has every counter: the four context values, then `str` of each counter in order |
| SingleStream.EmitRows | parse_csv.py:48-53 | the row loop succeeds exactly when every record has every counter, and then gives each record's row |
| SingleStream.EmitStream | parse_csv.py:45-53 | the output step computes the printed table, including the IndexError and the KeyError |
| SingleStream.StreamTable | parse_csv.py:45-53 | printing fails with an IndexError when there are no records, and otherwise with a KeyError exactly when some record lacks a key of the first; `StreamShape` gives the printed lines |
| SingleStream.StreamRowsAt | parse_csv.py:48-53 | the row of record `k` is its context values and counter cells joined by `;` |
| SingleStream.StreamShape | parse_csv.py:45-53 | the header is `bench;ht;cpus;freq` followed by the first record's keys; each row has the four context values and one cell per key, and splits back into them when no cell holds a `;` |
| SingleStream.StreamKeyError | parse_csv.py:45-51 | printing the grouped log fails with a KeyError exactly when some run lacks a counter name the first run has (other than `ts` and `t_diff`) |
| SingleStream.RunHasAll | parse_csv.py:50-51 | a run's record has every key of the first record exactly when the run names every counter of the first run |

## Left out

- Opening, reading and writing files, `argparse` and `sys.argv`, and the `sys.exit` paths
  are not modelled. Input files are given as sequences of lines. For appending, the
  existing output file is given as its content (`None` when there is none or appending is
  off). Output is the sequence of printed lines.
- The text of the diagnostics printed to stderr is not modelled. Each warning is a
  `Warning` value carrying the data it names.
- `float(...)` parsing and IEEE rounding are not modelled. Conversions are the parameters
  `toReal` and `showNum`, and numbers are unbounded reals. NaN is therefore not modelled:
  with NaN, `better(r, r)` would be false, and `Pareto.BetterReflexive` assumes it is
  not. A `ValueError` from an unparseable number is not modelled either.
- EnergyMatch.MergeEnergy: requires every record to hold a number under `ts`
  (`EnergyMatch.AllTimed`, also required by `EnergyMatch.Find` and
  `EnergyMatch.FindPerfCounter`). A counter that is itself named `ts` makes the counter
  loop store a string there (tools/parse_csv.py:109). The source would then raise a
  `TypeError` at `abs(values[i]["ts"] - current_ts)` (tools/parse_csv.py:27, 32); that
  error is not modelled.
- A malformed data line is not modelled. The source converts the first field with
  `float` before it reads the fourth (tools/parse_csv.py:92-93 and 125-126, parse_csv.py:33-34).
  So a line with fewer than four `;`-separated fields raises a ValueError when its first
  field is not a number (such as `abc`), and an IndexError otherwise. The model requires
  every line to have four fields (`LogLines.Parsable`, `SingleStream.Readable`) instead of
  modelling either error.
- `csv.DictReader` (tools/pareto.py:25-27) is a foreign library and is not modelled. Rows
  are given as key orders and maps of strings. `Pareto.Values` gives `''` for a key
  without a cell, which DictReader never produces.
- Pareto.Extract: requires that every row has every objective field once the objectives
  are accepted (`Pareto.Admissible`). In the source a missing field raises a KeyError once
  two rows that differ in value are compared (tools/pareto.py:32 calls `better` only
  when `d != r`); with a single row, or only equal rows, the source prints them instead.
  Neither case is modelled.
- Output produced before an exception is not modelled. A crash is the `Err` result alone,
  without the partial output the source would already have written: the header in
  `parse_csv.py`, the lines before a missing key in the Pareto filter, and the stderr
  warnings printed earlier in the run, such as the SummedDuplicate warning printed at
  tools/parse_csv.py:140 just before the TypeError at tools/parse_csv.py:141.
- Strings are sequences of characters. `strip()` uses Python's `str.isspace` set of
  whitespace characters; encodings, normalisation and the `\r\n` translation of text
  mode are not modelled.
- A top-level composition of the three merge stages is not modelled as one member: each
  stage (`PrimaryIngest.IngestCounters`, `EnergyMatch.MergeEnergy`,
  `TableOutput.WriteTable`) is modelled and proved on its own.
- eris_test.py is not part of this model. It drives hardware-model modules that are not
  available, and it has no self-contained logic.
