# JSONL viewer core in Dafny

This is a model of the data-processing core of a desktop JSONL (JSON Lines) viewer, `main.py`. The model covers three parts.

- **The background loader** (`FileLoaderThread.run`) reads the file one line at a time, using 1-based line ordinals.
  - It skips lines that are blank once stripped.
  - It parses every other line and counts it as valid or malformed.
  - It collects the keys and the value type names of the top-level objects.
  - It emits `line_loaded`, `error_line` and `progress` signals.
  - It stops at `max_lines` or when its stop flag is set.
  - Finally it hands its statistics to `finished`.
- **The viewer window's state** (`JSONLViewer`):
  - `all_records` and `error_records`, filled by the `add_record` and `add_error` slots;
  - `filtered_indices`, rebuilt by `apply_filters` from the search text, the regex check box and the field choice;
  - the schema of the last finished load;
  - whether the refresh of the table view (`populate_table_view`) raises, which aborts the application.
- **The CSV export** builds the header and the data rows that `export_to_csv` writes for the filtered records.

Layout:

- `text.dfy` (`Text`): Python's `str.strip()`, substring containment, the code-point order on strings, and `sorted()` of a set of strings.
- `json.dfy` (`Json`): decoded JSON values, `Option`/`Result`, and the Python type name of a value.
- `ingestion.dfy` (`Ingestion`):
  - the specification `Ingest` of a whole run, written as two folds over the stripped lines (`StatsAfter` for the statistics, `SignalsAfter` for the signals);
  - the imperative loop `Run`, proved to compute it.
- `ingestion_facts.dfy` (`IngestionFacts`): what the counters and the schema maps satisfy after a run.
- `signals.dfy` (`IngestionSignals`): which signals a run emits and in what order, and how `max_lines` and the stop flag bound them.
- `filter.dfy` (`Filter`): the per-record verdict of `apply_filters`, the list it leaves behind and whether it aborts (`ApplyFilters`), and when the table refresh raises (`TableRaises`).
- `filter_facts.dfy` (`FilterFacts`): what that list contains.
- `csv.dfy` (`Csv`): the header, the row of one record, and the rows of an export.
- `viewer.dfy` (`Viewer`): the class `JsonlViewer`, whose methods update the window's lists in place. Each method is proved against the functions above.

Library behaviour is passed in as parameters rather than modelled:

- `json.loads` is `parse: string -> Result<JsonValue, string>`. `Err` carries the decode error's message.
- `Filter.Builtins` bundles four Python functions:
  - `str.lower()`;
  - `str()` of a non-string value;
  - `json.dumps`;
  - `re.compile(text, re.IGNORECASE)`. It gives `None` where Python raises `re.error`; a compiled pattern is the predicate "`search` finds a match".
- The file is `Ingestion.Source`: the lines read, plus the error (if any) that opening or reading raises after the last line read.
- The thread's `should_stop` flag is the parameter `stopAt`. The flag only ever goes from false to true. `Some(n)` means the loop head first sees it set when it is about to handle line `n`.
- The search box, the regex check box and the field combo box are read as parameters: `text`, `useRegex` and `field`. For `on_loading_finished` the combo box's text before it is refilled is `shownField`.

An invalid regular expression does not keep the previous filter result: `apply_filters` sets `filtered_indices = []` (main.py:567) before compiling the pattern and returns when compiling fails (main.py:571-574). `Filter.ApplyFilters` yields `InvalidRegex`, `Viewer.JsonlViewer.ApplyFilters` leaves the list empty, and `FilterFacts.InvalidRegexExactly` states when this happens.

## Model

| member | source | states |
|---|---|---|
| Text.IsSpace | main.py:108 | Python's `str.isspace()` for one character, the set that `strip()` removes; `Text.StripSpec` and `Text.StripEmptyIffBlank` state what stripping with it yields |
| Text.Strip | main.py:108 | `line.strip()`, taking one whitespace character off either end at a time; `Text.StripSpec` and `Text.StripEmptyIffBlank` state what it yields |
| Text.StripSpec | main.py:108 | `line.strip()` is the slice of the line that starts at its first non-whitespace character (Python's `isspace` set): everything cut off is whitespace, and the result neither starts nor ends with whitespace |
| Text.StripEmptyIffBlank | main.py:108-110 | a line is skipped as blank exactly when it consists only of whitespace |
| Text.IsSubstring | main.py:581-594 | Python's `needle in hay` on strings, which the empty needle always satisfies; `FilterFacts.ObjectVerdict` and `FilterFacts.EmptyFieldRaises` state the verdicts that use it |
| Text.Below | main.py:663 | Python's `<` on strings, lexicographic by code point with a proper prefix first; `Text.BelowTotal` and `Text.BelowTransitive` show it is a strict total order |
| Text.SortKeys | main.py:663 | `sorted(all_keys)` lists every key of the set once, in strictly increasing code-point order, and nothing else |
| Text.SortedUnique | main.py:663 | the sorted key list is determined by the key set alone |
| Text.BelowTotal | main.py:663 | Python's string order is total: two distinct strings are ordered one way or the other |
| Text.BelowTransitive | main.py:663 | Python's string order is transitive |
| Text.LeastExists | main.py:663 | every non-empty set of keys has a least key, so sorting always makes progress |
| Json.TypeOf | main.py:125 | `type(value).__name__` of a decoded value; `Json.TypeOfSeparatesKinds` states that it tells the kinds apart |
| Json.TypeOfSeparatesKinds | main.py:125 | two values get the same type name exactly when they are of the same kind, so `bool` is never counted as `int` |
| Ingestion.Halts | main.py:102-106 | the two `break` tests of the loop head; `Ingestion.LoopHead` computes it and `IngestionSignals.ReachIsFirstHalt` ties it to the lines reached |
| Ingestion.CountKeys | main.py:120-122 | `all_keys.update(keys)` and `key_counts.update(keys)` for one object; `IngestionFacts.CountKeysEffect` states the update |
| Ingestion.AddTypes | main.py:124-126 | the type counters once the loop over the items has handled some keys; `Ingestion.CountTypes` is proved to compute it and `IngestionFacts.AddTypesEffect` states the update |
| Ingestion.Observe | main.py:119-126 | the schema update for one object: the key sets and counts, then the type counters; `IngestionFacts.CountKeysEffect`, `IngestionFacts.AddTypesEffect` and `IngestionFacts.StepPreserves` state it |
| Ingestion.ObserveValue | main.py:119-126 | only an object updates the schema; `IngestionFacts.StepSchemaOnlyFromObjects` states it |
| Ingestion.StepStats | main.py:112-132 | what one pass of the body does to `stats`; `IngestionFacts.StepStatsCounts`, `IngestionFacts.StepPreserves` and `IngestionFacts.StepSchemaOnlyFromObjects` state it |
| Ingestion.StepEvents | main.py:112-135 | the signals one pass of the body emits; `IngestionFacts.StepSignalCounts` and `IngestionSignals.StepEventsShape` state them |
| Ingestion.StatsAfter | main.py:101-132 | `stats` after the loop body ran for the first `k` lines, skipping blank ones; `Ingestion.LineLoop` is proved to compute it and `IngestionFacts.LoopCounts`, `IngestionFacts.LoopTotal` and `IngestionFacts.LoopSchemaConsistent` state what it holds |
| Ingestion.SignalsAfter | main.py:101-135 | the signals emitted while the body ran for the first `k` lines; `Ingestion.LineLoop` is proved to compute it and `IngestionSignals.SignalsAt` and `IngestionSignals.SignalsInOrder` state what it holds |
| Ingestion.FileError | main.py:137-138 | the `error_line(0, "", "File error: ...")` signal of a failing file; `IngestionSignals.FileErrorAt` and `IngestionSignals.OpenFailure` state when it is emitted |
| Ingestion.Emitted | main.py:101-140 | the signals of a whole run: those of the lines reached, then the file error when reading failed after the last line; `Ingestion.Run` is proved to emit them and `IngestionSignals.LineSignalAt`, `IngestionSignals.IngestInOrder` and `IngestionSignals.LimitsRespected` state what they are |
| Ingestion.Ingest | main.py:85-140 | the whole run as folds over the stripped lines; `Ingestion.Run` is proved to compute it, and the `IngestionFacts` and `IngestionSignals` lemmas state what it yields |
| Ingestion.Reach | main.py:101-106 | the number of lines whose body runs: the loop head lets every earlier ordinal through, and it halts at the next one unless the lines ran out |
| Ingestion.CountTypes | main.py:124-126 | the loop over `parsed.items()` adds one under the value's type name to `type_info[key]` for every key of the object |
| Ingestion.ProcessLine | main.py:112-135 | the body for a non-blank line: `total_lines` becomes the ordinal; a line that parses is counted valid, updates the schema only if it is an object, and emits `line_loaded`; one that does not is counted as an error and emits `error_line`; ordinals divisible by 100 then emit `progress` |
| Ingestion.Advance | main.py:108-135 | one pass of the loop body after the two `break` tests (strip, `continue` on a blank line, process) takes the statistics and the signals from line `i` to line `i + 1` of the specification folds; a blank line changes nothing |
| Ingestion.LoopHead | main.py:102-106 | the loop head breaks at ordinal `n` exactly when the stop flag is seen set there or a non-zero `max_lines` is below `n` |
| Ingestion.LineLoop | main.py:101-135 | the `for` loop leaves after `i` lines, never beyond the lines the loop head lets through, because the lines ran out or a `break` test fired at line `i + 1`; its statistics and signals are those of the specification folds over the first `i` lines |
| Ingestion.Run | main.py:85-140 | `run` computes exactly `Ingest`: the statistics and the signals of the lines the loop head lets through, then the file error when the loop ran through every line and reading failed |
| IngestionFacts.CountKeysEffect | main.py:120-122 | `key_counts.update(keys)` adds one to the count of every key of the object and leaves the other counts alone; `all_keys` gains exactly those keys |
| IngestionFacts.AddTypesEffect | main.py:124-126 | for every key of the object, its counter under the value's type name grows by one and its counters under the other names stay the same; the counters of every other key are unchanged |
| IngestionFacts.StepSchemaOnlyFromObjects | main.py:119 | the schema maps change only when the line parses to an object |
| IngestionFacts.StepPreserves | main.py:114-132 | one pass of the loop body keeps the schema consistent: `all_keys` is the set of keys with a positive count, each count is at most `valid_lines`, and each key's type counter sums to its count |
| IngestionFacts.LoopSchemaConsistent | main.py:101-135 | the schema is consistent after any number of lines |
| IngestionFacts.IngestSchemaConsistent | main.py:119-140 | the statistics handed to `finished` have a consistent schema |
| IngestionFacts.StepStatsCounts | main.py:112-131 | one pass records its ordinal as `total_lines` and counts its line as valid or as an error, never both |
| IngestionFacts.StepSignalCounts | main.py:128-132 | one pass emits one `line_loaded` for a line that parses and one `error_line` for a line that does not |
| IngestionFacts.LoopCounts | main.py:101-132 | after `k` lines, valid plus error lines is the number of non-blank lines and `total_lines` is the ordinal of the last of them |
| IngestionFacts.LoopLoadedCount | main.py:116-128 | after `k` lines, `valid_lines` equals the number of `line_loaded` signals |
| IngestionFacts.LoopFailedCount | main.py:131-132 | after `k` lines, `error_lines` equals the number of `error_line` signals for lines |
| IngestionFacts.LoopTotal | main.py:108-112 | after `k` lines, valid plus error lines is at most `total_lines`, with equality exactly when no line up to `total_lines` was blank |
| IngestionFacts.CountsVersusTotal | main.py:112-131 | `total_lines` is an ordinal, not a count: valid plus error lines never exceeds it, and equals it exactly when no blank line comes before the last line handled |
| IngestionFacts.IngestCounts | main.py:101-132 | every line the loop reaches that is not blank is counted exactly once as valid or as an error (a decode error does not stop the loop), and the counters agree with the signals |
| IngestionSignals.StepEventsShape | main.py:128-135 | the signals of one pass carry its ordinal; the line signal comes first, then `progress` if any |
| IngestionSignals.SignalsAt | main.py:101-135 | a signal is among those of the first `k` lines exactly when its line is one of them, is not blank, and the body emits that signal for it |
| IngestionSignals.SignalsInOrder | main.py:101-135 | the signals come in line order, and the line signal of a line comes before its `progress` signal |
| IngestionSignals.ReachIsFirstHalt | main.py:101-106 | the loop reaches line `n` exactly when `n` is a line of the file and neither `break` test fires at `n` |
| IngestionSignals.ReachStopsAt | main.py:102-106 | the loop stops just before the first ordinal at which a `break` test fires |
| IngestionSignals.LineSignalAt | main.py:101-135 | a signal for line `n` is emitted by a run exactly when `n` is a line of the file, neither `break` test fires at `n`, the line is not blank once stripped, and one pass of the body emits that signal for it |
| IngestionSignals.FileErrorAt | main.py:137-138 | a signal with ordinal 0 is emitted exactly when it is the file error and reading failed after the loop ran through every line |
| IngestionSignals.ProgressSignals | main.py:109-135 | `progress(n, -1)` is emitted exactly for the non-blank lines reached whose ordinal is a multiple of 100, whether they parse or not |
| IngestionSignals.LoadedSignals | main.py:114-128 | `line_loaded(n, value, raw)` is emitted exactly for the non-blank lines reached that parse to `value`, with the stripped line as `raw` |
| IngestionSignals.ErrorSignals | main.py:130-138 | `error_line(n, raw, msg)` is emitted exactly for the non-blank lines reached that fail to parse with `msg`, and once with ordinal 0 and `File error: ...` for a failing file |
| IngestionSignals.LimitsRespected | main.py:102-106 | no signal and no `total_lines` refers to a line beyond a positive `max_lines`, nor to the line before which the stop flag was seen set, nor to any later line |
| IngestionSignals.IngestInOrder | main.py:101-140 | the signals of a run come in line order, and the file error, when there is one, comes last |
| IngestionSignals.FoldsOnPrefix | main.py:101-135 | the statistics and signals after `k` lines depend only on those `k` lines |
| IngestionSignals.TruncatedRun | main.py:101-140 | a run over the first `m` lines, with no limit, no stop and no error, is the loop over those lines of the whole file |
| IngestionSignals.HaltKeepsPrefix | main.py:102-140 | halting at line `n` by the stop flag or `max_lines` gives exactly the run over the first `n - 1` lines: the statistics gathered so far still reach `finished`, and no file error is reported |
| IngestionSignals.OpenFailure | main.py:97-140 | a file that cannot be opened gives zero statistics and the one signal `error_line(0, "", "File error: ...")` |
| Filter.Check | main.py:577-594 | the verdict of the scan for one record; `Filter.ScanRecord` is proved to compute it, and `FilterFacts.ObjectVerdict`, `FilterFacts.RaiseOnlyFromNonObjects` and `FilterFacts.EmptyFieldRaises` state it |
| Filter.PyStr | main.py:587 | `str()` of a field value: a string is itself, anything else is shown by Python; `FilterFacts.ObjectVerdict` states the verdict that uses it |
| Filter.Matches | main.py:591-594 | the search test, regex `search` or case-folded substring; `FilterFacts.ObjectVerdict` states the verdict that uses it |
| Filter.Target | main.py:585-589 | the text searched: `str(data.get(field, ""))` for a chosen field, raising for a non-object, or the raw line; `FilterFacts.ObjectVerdict` and `FilterFacts.RaiseOnlyFromNonObjects` state its effect |
| Filter.Kept | main.py:576-597 | the indices the scan appends for the first `k` records; `Viewer.JsonlViewer.FilterLoop` is proved to compute it and `FilterFacts.KeptExactly` states what it holds |
| Filter.ApplyFilters | main.py:555-606 | the outcome of one call of `apply_filters`: nothing with no records, an invalid pattern, an abort in the scan, or a list refreshed into the views, which aborts when the table refresh raises; `Viewer.JsonlViewer.ApplyFilters` is proved to follow it, and `FilterFacts.ShownExactly`, `FilterFacts.InvalidRegexExactly`, `FilterFacts.RaisedPrefix` and `FilterFacts.ObjectsNeverRaise` state its cases |
| Filter.TableRaises | main.py:523-549 | `populate_table_view` raises exactly when there are records, the last load found a key, and one of the first 1000 records shown is not an object, since only an object has `get` (main.py:545) |
| Filter.Refreshed | main.py:599-606 | a list that reaches the refresh is shown, or aborts the application when `populate_table_view` raises; `FilterFacts.ShownExactly` states the list shown |
| Filter.Contains | main.py:581 | `field in data` raises exactly for a number, a boolean or `null`; it is key membership for an object, element membership for an array and substring for a string |
| Filter.ScanRecord | main.py:577-594 | the loop body for one record decides as `Check` does, including the two ways an exception escapes |
| Filter.FirstRaise | main.py:576-594 | the first record that makes the scan raise: it raises, and no earlier record does |
| Filter.Range | main.py:565 | `list(range(n))` holds `0 .. n-1` in order |
| FilterFacts.KeptExactly | main.py:576-597 | the indices the scan appends are strictly increasing and in range, and they are exactly the records that pass both tests |
| FilterFacts.IdentityAgrees | main.py:564-565 | with empty text and no field chosen, the scan would keep every record, so the shortcut `list(range(n))` agrees with it |
| FilterFacts.ObjectVerdict | main.py:580-594 | an object record never raises; it is kept exactly when the chosen field is a key and the text, when not empty, matches `str` of that field's value or the raw line |
| FilterFacts.RaiseOnlyFromNonObjects | main.py:581-587 | only a non-object record under a chosen field can make the scan raise: a scalar at the `in` test, or an array or string at `.get` |
| FilterFacts.ShownExactly | main.py:560-606 | whenever the views are refreshed, whether or not the table refresh then raises, the shown list is strictly increasing and holds exactly the indices of the records that pass both tests, the identity shortcut included |
| FilterFacts.InvalidRegexExactly | main.py:567-574 | the filter stops at an invalid pattern exactly when there are records, regex mode is on, the stripped text is not empty and does not compile; the list is then empty |
| FilterFacts.ObjectsNeverRaise | main.py:523-606 | when every record is an object, `apply_filters` never aborts: neither the scan nor the table refresh raises |
| FilterFacts.RefreshedList | main.py:564-597 | the list a refresh shows is `list(range(n))` for an empty search text and no field, and the scan's list otherwise |
| FilterFacts.TableAfterLoad | main.py:447-454 | the table refresh at the end of a load, with every record shown, raises exactly when the load found a key and one of the first 1000 records is not an object |
| FilterFacts.RaisedPrefix | main.py:576-597 | when the scan raises at record `j`, the list left behind at the abort holds exactly the kept records before `j`, in increasing order |
| FilterFacts.FirstRaiseAt | main.py:576-594 | a record that raises with no earlier record raising stays the first raising record however many records follow |
| FilterFacts.EmptyFieldRaises | main.py:567-594 | with the empty string as the field, the scan of `apply_filters` raises exactly when the pattern, if any, compiles and some record is a number, a boolean or `null`, or, with a non-empty search text, a string or an array holding `""` |
| Csv.Lookup | main.py:673 | `data.get(key, '')` on an object: a missing key gives the empty string; `Csv.RowShape` states the cell that results |
| Csv.CellText | main.py:673-676 | the text of one cell: a string as it is, an object or array JSON-dumped, anything else `str()`; `Csv.RowShape` states it |
| Csv.Row | main.py:671-676 | the row of one record, or a failure where `.get` raises; `Csv.WriteRow` is proved to compute it and `Csv.RowShape` states its shape |
| Csv.Rows | main.py:669-677 | the rows written for the first `k` filtered records, or those written before a failure; `Viewer.JsonlViewer.ExportCsv` is proved to compute it and `Csv.RowsExactly` states it |
| Csv.Header | main.py:667 | the header is `line_num` followed by the keys in order |
| Csv.WriteRow | main.py:671-676 | the row loop for one record builds the row `Row` specifies, failing where `.get` raises |
| Csv.RowShape | main.py:671-676 | a row exists exactly when there is no key or the record is an object; it is as wide as the header and starts with the line number; a missing key gives an empty cell, a string is written as it is, and an object or array is JSON-dumped |
| Csv.RowsExactly | main.py:669-677 | the rows written are the rows of the filtered records, in order, up to the first record without a row; the export fails exactly when there is one |
| Csv.RowsKeepError | main.py:669-677 | once a row has failed, nothing more is written |
| Csv.ObjectsExportFully | main.py:669-677 | when every filtered record is an object, there is one row per filtered record, each as wide as the header |
| Viewer.LoadedRecords | main.py:388-394 | the records that the `add_record` slot appends for a list of signals; `Viewer.LoadedRecordsMembers`, `Viewer.LoadedRecordsCount` and `Viewer.LoadedRecordsOrdered` state what they are |
| Viewer.ErrorRecords | main.py:410-412 | the entries that the `add_error` slot appends for a list of signals; `Viewer.ErrorRecordsMembers` states what they are |
| Viewer.FinishAborts | main.py:421-454 | `on_loading_finished` aborts exactly when the `apply_filters` run from `clear()` aborts (only when the combo box's text was not empty), or the run from adding "All Fields" aborts, or the final `populate_table_view` with every record shown raises |
| Viewer.LoadedRecordsMembers | main.py:388-394 | the records added are exactly the `line_loaded` signals received |
| Viewer.ErrorRecordsMembers | main.py:410-412 | the error entries added are exactly the `error_line` signals received |
| Viewer.LoadedRecordsCount | main.py:388-394 | one record is added per `line_loaded` signal |
| Viewer.LoadedRecordsOrdered | main.py:388-394 | records appended from signals with increasing line numbers keep that order |
| Viewer.LoadedFromRun | main.py:388-394 | after a load the viewer holds one record per valid line, in strictly increasing line order, and a record is held exactly when its line was reached, is not blank, and parses to its value |
| Viewer.JsonlViewer.constructor | main.py:149-155 | the window starts with no records, no errors, no filter result and an empty key set |
| Viewer.JsonlViewer.LoadFile | main.py:352-358 | `load_file` empties the records, the errors and the filter result, and keeps the previous key set |
| Viewer.JsonlViewer.AddRecord | main.py:388-394 | `add_record` appends the record and changes nothing else |
| Viewer.JsonlViewer.AddError | main.py:410-412 | `add_error` appends the entry and changes nothing else |
| Viewer.JsonlViewer.Receive | main.py:370-373 | delivering a run's signals in order appends exactly the loaded records and the error entries, in order |
| Viewer.JsonlViewer.Load | main.py:352-379 | loading a file leaves the records and errors of that run and its key set; the application aborts in `on_loading_finished` exactly as `Viewer.FinishAborts` says, and otherwise every record is shown |
| Viewer.JsonlViewer.OnLoadingFinished | main.py:421-454 | `on_loading_finished` takes the key set from the statistics, refills the field combo box, which runs `apply_filters` with the field `""` (main.py:208, 435) and then with "All Fields" (main.py:436), shows every record (main.py:447) and refreshes the table (main.py:454); the application aborts exactly when `Viewer.FinishAborts` holds, which never happens when every record is an object, and otherwise every record is shown |
| Viewer.JsonlViewer.ApplyFilters | main.py:555-606 | `apply_filters` leaves `filtered_indices` as `Filter.ApplyFilters` says: unchanged with no records, the shown list (also when the table refresh then raises), empty on an invalid pattern, or the partial list when the scan raised; it reports an exception escaping from the scan or from the table refresh exactly when `Filter.ApplyFilters` aborts |
| Viewer.JsonlViewer.PopulateTableView | main.py:523-549 | `populate_table_view` visits the first 1000 records shown and raises exactly when `Filter.TableRaises` holds; it changes nothing the model tracks |
| Viewer.JsonlViewer.FilterLoop | main.py:567-597 | the scan resets the list and appends, in place, the index of every kept record until the end or until a record raises, and reports whether one did |
| Viewer.JsonlViewer.ExportCsv | main.py:650-677 | with no records nothing is exported; otherwise the keys are the last load's key set, sorted, the header is built from them, and the rows are those `Csv.Rows` specifies for the filtered records, ending early where a record raises |

## Left out

- The Qt user interface is not modelled: widgets, layout, theming, menus, the toolbar, dialogs, the syntax highlighter, the tree view, the cells and headers that `populate_table_view` writes (only whether it raises is modelled), the schema and statistics panes, and the success-rate and coverage percentages. None of this affects the lists the model covers.
- An exception escaping `apply_filters` or `populate_table_view` aborts the application: every caller is a slot or is called from one, and PyQt6 ends the process on an exception that leaves a slot. The model reports the abort, from the scan or from `populate_table_view` (`Raised`, `TableRaised`, the `raised` and `aborted` results), and the list at that point; nothing after it is modelled.
- `Json.JsonValue`: an object is a `map`, so the insertion order of its keys is lost. `json.dumps` in a CSV cell (main.py:675) and `str()` of a field value in a field-scoped search (main.py:587) print keys in that order; here `dumps` and `show` give the same text for two objects that differ only in key order.
- `Json.JsonValue`: a float is a `real`. It cannot be `NaN`, `Infinity` or `-Infinity`, which `json.loads` accepts, and `-0.0` is the same value as `0.0`.
- Threads and queued signal delivery are not modelled. The signals of a run are a list delivered in emission order to the connected slots (`Viewer.JsonlViewer.Receive`). `stop()` and `wait()` are reduced to the `stopAt` input.
- Ingestion.Run: the `line_loaded` signal is declared with a `dict` argument. The model assumes that emitting it for an array or a scalar succeeds. The PyQt type check that could instead raise into the outer `except` is not modelled.
- File opening, gzip, UTF-8 decoding with `errors='replace'` and line splitting are I/O. The file is given as the lines read plus an optional error.
- `json.loads`, `json.dumps`, Python's `re`, `str()` of non-strings and `str.lower()` are taken as parameters. The decode error's message is part of `parse`'s result.
- `csv.writer` quoting, the file writes and the message boxes of both exports are not modelled. `export_filtered` (JSONL export) is not modelled either: it only writes the filtered records back out.
- Display limits are not modelled, except that `populate_table_view` raises only for the first 1000 records shown: the tree throttle in `add_record`, the 1000-item cap of the tree refresh in `apply_filters`, and the 300 ms debounce.
- The save-file dialog is not modelled. Cancelling it skips the export; `Viewer.JsonlViewer.ExportCsv` models a chosen file.
- The field combo box shows "All Fields" as its first entry. A real key with that name cannot be chosen as a field; the model treats the name as "no field", as the code does.
- A negative `max_lines` halts the loop at once. The window never passes one, because `load_file` turns a non-positive spin-box value into `None`.
- Ingestion.Run: `parse` has two outcomes, a value or a decode error. Any other exception from `json.loads` is not modelled: a `RecursionError` on deeply nested input, or a `ValueError` for an integer literal of more than 4300 digits. The source lets such an exception pass the inner `except` (main.py:130) to the outer one (main.py:137-138). That emits "File error: ..." and ends the loop, with `total_lines` already at that line's ordinal and neither counter bumped.
- Ingestion.Ingest: the same two-outcome `parse`. A line whose decoding raises something other than a decode error is not a stopping point here.
- IngestionFacts.IngestCounts: "every non-blank line reached is counted" holds for lines that decode or fail with a decode error. A line that raises another exception from `json.loads` ends the source's loop uncounted, and that is not modelled.
- Json.JsonValue: a string is a `seq<char>`, so it cannot hold the lone surrogate that `json.loads` gives for an escape such as `"\ud800"`. Keys, the string order `Text.Below` and the substring tests are modelled for strings without lone surrogates.
