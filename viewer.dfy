/** The state of the viewer window that the loader and the filter act on:
    the records received, the malformed lines received, the indices the
    filter shows and the key set of the last finished load. The widgets that
    display them are not modelled. */
module Viewer {
  import opened Json
  import opened Text
  import opened Ingestion
  import opened Filter
  import opened FilterFacts
  import opened Csv
  import opened IngestionFacts
  import opened IngestionSignals

  /** One entry of `error_records`: `(line_num, raw, error)`. */
  datatype ErrorRecord = ErrorRecord(lineNum: nat, raw: string, error: string)

  /** What `export_to_csv` writes: nothing when there are no records;
      otherwise the sorted keys, the header, and the data rows, all of them
      (`Ok`) or those written before a record made the export fail (`Err`). */
  datatype CsvOutcome =
    | NoData
    | Exported(keys: seq<string>, header: seq<Cell>, rows: Result<seq<seq<Cell>>, seq<seq<Cell>>>)

  /** The records the `line_loaded` signals of `evs` add, in order. */
  function LoadedRecords(evs: seq<Event>): seq<Record>
  {
    if evs == [] then []
    else
      var e := evs[|evs| - 1];
      LoadedRecords(evs[..|evs| - 1]) + (if e.LineLoaded? then [Record(e.lineNum, e.parsed, e.raw)] else [])
  }

  /** The entries the `error_line` signals of `evs` add, in order. */
  function ErrorRecords(evs: seq<Event>): seq<ErrorRecord>
  {
    if evs == [] then []
    else
      var e := evs[|evs| - 1];
      ErrorRecords(evs[..|evs| - 1]) + (if e.ErrorLine? then [ErrorRecord(e.lineNum, e.raw, e.error)] else [])
  }

  /** A record list whose line numbers strictly increase. */
  predicate LineOrdered(recs: seq<Record>)
  {
    forall i, j :: 0 <= i < j < |recs| ==> recs[i].lineNum < recs[j].lineNum
  }

  /** The records added are exactly the `line_loaded` signals. */
  lemma {:induction false} LoadedRecordsMembers(evs: seq<Event>, r: Record)
    ensures r in LoadedRecords(evs) <==> LineLoaded(r.lineNum, r.data, r.raw) in evs
  {
    if evs != [] {
      var init := evs[..|evs| - 1];
      LoadedRecordsMembers(init, r);
      assert evs == init + [evs[|evs| - 1]];
    }
  }

  /** The entries added are exactly the `error_line` signals. */
  lemma {:induction false} ErrorRecordsMembers(evs: seq<Event>, r: ErrorRecord)
    ensures r in ErrorRecords(evs) <==> ErrorLine(r.lineNum, r.raw, r.error) in evs
  {
    if evs != [] {
      var init := evs[..|evs| - 1];
      ErrorRecordsMembers(init, r);
      assert evs == init + [evs[|evs| - 1]];
    }
  }

  /** One record is added per `line_loaded` signal. */
  lemma {:induction false} LoadedRecordsCount(evs: seq<Event>)
    ensures |LoadedRecords(evs)| == Loaded(evs)
  {
    if evs != [] {
      LoadedRecordsCount(evs[..|evs| - 1]);
    }
  }

  /** Records added from signals whose line numbers increase keep that
      order. */
  lemma {:induction false} LoadedRecordsOrdered(evs: seq<Event>)
    requires forall i, j :: 0 <= i < j < |evs| && evs[i].LineLoaded? && evs[j].LineLoaded? ==>
      evs[i].lineNum < evs[j].lineNum
    ensures LineOrdered(LoadedRecords(evs))
  {
    if evs != [] {
      var init := evs[..|evs| - 1];
      var last := evs[|evs| - 1];
      LoadedRecordsOrdered(init);
      if last.LineLoaded? {
        var recs := LoadedRecords(evs);
        var prev := LoadedRecords(init);
        forall i | 0 <= i < |prev|
          ensures prev[i].lineNum < last.lineNum
        {
          LoadedRecordsMembers(init, prev[i]);
          var k :| 0 <= k < |init| && init[k] == LineLoaded(prev[i].lineNum, prev[i].data, prev[i].raw);
          assert evs[k] == init[k];
        }
        forall i, j | 0 <= i < j < |recs|
          ensures recs[i].lineNum < recs[j].lineNum
        {
          assert recs[i] == prev[i];
          if j < |prev| {
            assert recs[j] == prev[j];
          }
        }
      }
    }
  }

  /** After a load, the viewer holds one record per valid line in line
      order, and a record is held exactly when its line was read before the
      loader halted, is not blank once stripped, and parses to its value. */
  lemma LoadedFromRun(src: Source, maxLines: Option<int>, stopAt: Option<nat>,
                      parse: string -> Result<JsonValue, string>)
    ensures var o := Ingest(src, maxLines, stopAt, parse);
      var recs := LoadedRecords(o.events);
      && |recs| == o.stats.validLines
      && LineOrdered(recs)
      && forall r :: r in recs <==>
           && 1 <= r.lineNum <= |src.lines| && !Halts(r.lineNum, maxLines, stopAt)
           && r.raw == Strip(src.lines[r.lineNum - 1]) && r.raw != [] && parse(r.raw) == Ok(r.data)
  {
    var o := Ingest(src, maxLines, stopAt, parse);
    IngestCounts(src, maxLines, stopAt, parse);
    LoadedRecordsCount(o.events);
    RunRecordsOrdered(src, maxLines, stopAt, parse);
    RunRecordsMembers(src, maxLines, stopAt, parse);
  }

  lemma RunRecordsOrdered(src: Source, maxLines: Option<int>, stopAt: Option<nat>,
                          parse: string -> Result<JsonValue, string>)
    ensures LineOrdered(LoadedRecords(Emitted(src, maxLines, stopAt, parse)))
  {
    var evs := Emitted(src, maxLines, stopAt, parse);
    IngestInOrder(src, maxLines, stopAt, parse);
    forall i, j | 0 <= i < j < |evs| && evs[i].LineLoaded? && evs[j].LineLoaded?
      ensures evs[i].lineNum < evs[j].lineNum
    {
      LoadedSignals(src, maxLines, stopAt, parse, evs[j].lineNum, evs[j].parsed, evs[j].raw);
      assert Before(evs[i], evs[j]);
    }
    LoadedRecordsOrdered(evs);
  }

  lemma RunRecordsMembers(src: Source, maxLines: Option<int>, stopAt: Option<nat>,
                          parse: string -> Result<JsonValue, string>)
    ensures forall r :: r in LoadedRecords(Emitted(src, maxLines, stopAt, parse)) <==>
      && 1 <= r.lineNum <= |src.lines| && !Halts(r.lineNum, maxLines, stopAt)
      && r.raw == Strip(src.lines[r.lineNum - 1]) && r.raw != [] && parse(r.raw) == Ok(r.data)
  {
    forall r {
      RunRecordAt(src, maxLines, stopAt, parse, r);
    }
  }

  lemma RunRecordAt(src: Source, maxLines: Option<int>, stopAt: Option<nat>,
                    parse: string -> Result<JsonValue, string>, r: Record)
    ensures r in LoadedRecords(Emitted(src, maxLines, stopAt, parse)) <==>
      && 1 <= r.lineNum <= |src.lines| && !Halts(r.lineNum, maxLines, stopAt)
      && r.raw == Strip(src.lines[r.lineNum - 1]) && r.raw != [] && parse(r.raw) == Ok(r.data)
  {
    var evs := Emitted(src, maxLines, stopAt, parse);
    var signal := LineLoaded(r.lineNum, r.data, r.raw);
    LoadedRecordsMembers(evs, r);
    assert r in LoadedRecords(evs) <==> signal in evs;
    LoadedSignals(src, maxLines, stopAt, parse, r.lineNum, r.data, r.raw);
  }

  /** Whether `on_loading_finished` aborts the application, given the
      records, the search box, the regex box, the field combo box's text
      before it is refilled, and the key set of the load just finished: the
      run of `apply_filters` with the empty field (only when the combo box's
      text changes), the run with "All Fields", or the table refresh with
      every record shown raises. */
  predicate FinishAborts(records: seq<Record>, text: string, useRegex: bool, shownField: string, b: Builtins,
                         keys: set<string>)
  {
    || (shownField != [] && Filter.ApplyFilters(records, text, useRegex, [], b, keys).Aborts())
    || Filter.ApplyFilters(records, text, useRegex, AllFields, b, keys).Aborts()
    || TableRaises(records, Range(|records|), keys)
  }

  class JsonlViewer {
    var allRecords: seq<Record>
    var errorRecords: seq<ErrorRecord>
    var filteredIndices: seq<nat>
    /** `schema_info.get('all_keys', set())`: empty until a load finishes. */
    var schemaKeys: set<string>

    /** Every index the filter shows refers to a record. */
    ghost predicate Valid()
      reads this
    {
      forall i :: 0 <= i < |filteredIndices| ==> filteredIndices[i] < |allRecords|
    }

    constructor()
      ensures Valid()
      ensures allRecords == [] && errorRecords == [] && filteredIndices == [] && schemaKeys == {}
    {
      allRecords := [];
      errorRecords := [];
      filteredIndices := [];
      schemaKeys := {};
    }

    /** The state `load_file` resets before starting a loader; the key set
        of the previous load stays until the new one finishes. */
    method LoadFile()
      modifies this
      ensures Valid()
      ensures allRecords == [] && errorRecords == [] && filteredIndices == []
      ensures schemaKeys == old(schemaKeys)
    {
      allRecords := [];
      errorRecords := [];
      filteredIndices := [];
    }

    /** `add_record`: the record is appended. */
    method AddRecord(lineNum: nat, parsed: JsonValue, raw: string)
      requires Valid()
      modifies this
      ensures Valid()
      ensures allRecords == old(allRecords) + [Record(lineNum, parsed, raw)]
      ensures errorRecords == old(errorRecords) && filteredIndices == old(filteredIndices)
      ensures schemaKeys == old(schemaKeys)
    {
      allRecords := allRecords + [Record(lineNum, parsed, raw)];
    }

    /** `add_error`: the entry is appended. */
    method AddError(lineNum: nat, raw: string, error: string)
      requires Valid()
      modifies this
      ensures Valid()
      ensures errorRecords == old(errorRecords) + [ErrorRecord(lineNum, raw, error)]
      ensures allRecords == old(allRecords) && filteredIndices == old(filteredIndices)
      ensures schemaKeys == old(schemaKeys)
    {
      errorRecords := errorRecords + [ErrorRecord(lineNum, raw, error)];
    }

    /** The loader's signals delivered in order to the slots `load_file`
        connects: `line_loaded` to `add_record`, `error_line` to `add_error`;
        `progress` only updates the progress bar. */
    method Receive(evs: seq<Event>)
      requires Valid()
      modifies this
      ensures Valid()
      ensures allRecords == old(allRecords) + LoadedRecords(evs)
      ensures errorRecords == old(errorRecords) + ErrorRecords(evs)
      ensures filteredIndices == old(filteredIndices) && schemaKeys == old(schemaKeys)
    {
      var i := 0;
      while i < |evs|
        invariant i <= |evs| && Valid()
        invariant allRecords == old(allRecords) + LoadedRecords(evs[..i])
        invariant errorRecords == old(errorRecords) + ErrorRecords(evs[..i])
        invariant filteredIndices == old(filteredIndices) && schemaKeys == old(schemaKeys)
      {
        assert evs[..i + 1][..i] == evs[..i];
        match evs[i] {
          case LineLoaded(n, parsed, raw) =>
            AddRecord(n, parsed, raw);
          case ErrorLine(n, raw, error) =>
            AddError(n, raw, error);
          case Progress(_, _) =>
        }
        i := i + 1;
      }
      assert evs[..i] == evs;
    }

    /** `load_file` followed by a loader run whose signals reach the
        connected slots in the order they were emitted, ending with
        `finished`. The search box holds `text`, the regex box `useRegex`
        and the field combo box `shownField` meanwhile. `aborted` says
        whether the application ended inside `on_loading_finished`. */
    method Load(src: Source, maxLines: Option<int>, stopAt: Option<nat>,
                parse: string -> Result<JsonValue, string>,
                text: string, useRegex: bool, shownField: string, b: Builtins)
      returns (aborted: bool)
      modifies this
      ensures Valid()
      ensures var o := Ingest(src, maxLines, stopAt, parse);
        && allRecords == LoadedRecords(o.events)
        && errorRecords == ErrorRecords(o.events)
        && schemaKeys == o.stats.allKeys
      ensures aborted <==> FinishAborts(allRecords, text, useRegex, shownField, b, schemaKeys)
      ensures !aborted ==> filteredIndices == Range(|allRecords|)
    {
      LoadFile();
      var stats, events := Run(src, maxLines, stopAt, parse);
      Receive(events);
      aborted := OnLoadingFinished(stats, text, useRegex, shownField, b);
    }

    /** `on_loading_finished`: the key set is taken from the statistics,
        the field combo box is refilled, the filter is reset to show every
        record, and the table is refreshed. The combo box's
        `currentTextChanged` signal is connected to `apply_filters`, so
        refilling it runs the filter twice: `clear()` changes the current
        text from `shownField` to the empty string (unless it was empty
        already), and adding "All Fields" to the empty box makes that the
        current text. Under PyQt6 an exception that escapes a slot aborts
        the application; `aborted` says whether one did, in either run of
        the filter or in the final table refresh. */
    method OnLoadingFinished(stats: Stats, text: string, useRegex: bool, shownField: string, b: Builtins)
      returns (aborted: bool)
      requires Valid()
      modifies this
      ensures Valid()
      ensures schemaKeys == stats.allKeys
      ensures allRecords == old(allRecords) && errorRecords == old(errorRecords)
      ensures aborted <==> FinishAborts(allRecords, text, useRegex, shownField, b, stats.allKeys)
      ensures !aborted ==> filteredIndices == Range(|allRecords|)
      ensures (forall i :: 0 <= i < |allRecords| ==> allRecords[i].data.JDict?) ==> !aborted
    {
      schemaKeys := stats.allKeys;
      if forall i :: 0 <= i < |allRecords| ==> allRecords[i].data.JDict? {
        ObjectsNeverRaise(allRecords, text, useRegex, [], b, schemaKeys);
        ObjectsNeverRaise(allRecords, text, useRegex, AllFields, b, schemaKeys);
      }
      if shownField != [] {
        aborted := ApplyFilters(text, useRegex, [], b);
        if aborted {
          return;
        }
      }
      aborted := ApplyFilters(text, useRegex, AllFields, b);
      if aborted {
        return;
      }
      filteredIndices := Range(|allRecords|);
      aborted := PopulateTableView();
    }

    /** `apply_filters`: rebuilds `filtered_indices` as `Filter.ApplyFilters`
        specifies, including the early return on an invalid pattern, an
        exception escaping from the scan and one escaping from the table
        refresh; `raised` reports the two exceptions. */
    method ApplyFilters(text: string, useRegex: bool, field: string, b: Builtins) returns (raised: bool)
      requires Valid()
      modifies this
      ensures Valid()
      ensures allRecords == old(allRecords) && errorRecords == old(errorRecords)
      ensures schemaKeys == old(schemaKeys)
      ensures raised <==> Filter.ApplyFilters(allRecords, text, useRegex, field, b, schemaKeys).Aborts()
      ensures match Filter.ApplyFilters(allRecords, text, useRegex, field, b, schemaKeys)
        case NoRecords => filteredIndices == old(filteredIndices)
        case Shown(indices) => filteredIndices == indices
        case TableRaised(indices) => filteredIndices == indices
        case InvalidRegex => filteredIndices == []
        case Raised(partial) => filteredIndices == partial
    {
      raised := false;
      if allRecords == [] {
        return;
      }
      var search := Strip(text);
      if search == [] && field == AllFields {
        filteredIndices := Range(|allRecords|);
      } else {
        var m := Plain;
        if useRegex && search != [] {
          var pattern := b.compile(search);
          if pattern.None? {
            filteredIndices := [];
            return;
          }
          m := Pattern(pattern.value);
        }
        raised := FilterLoop(search, field, m, b);
        if raised {
          return;
        }
      }
      raised := PopulateTableView();
    }

    /** `populate_table_view`: with records and a non-empty key set, every
        one of the first `TableRows` records shown has `data.get(key, "")`
        called on it for each key, which raises unless the record is an
        object. The cells written are not modelled. */
    method PopulateTableView() returns (raised: bool)
      requires Valid()
      ensures raised <==> TableRaises(allRecords, filteredIndices, schemaKeys)
    {
      if allRecords == [] || schemaKeys == {} {
        return false;
      }
      var rows := if |filteredIndices| < TableRows then |filteredIndices| else TableRows;
      var r := 0;
      while r < rows
        invariant r <= rows
        invariant forall i :: 0 <= i < r ==> allRecords[filteredIndices[i]].data.JDict?
      {
        if !allRecords[filteredIndices[r]].data.JDict? {
          return true;
        }
        r := r + 1;
      }
      return false;
    }

    /** The scan loop of `apply_filters`: the list is reset, then the index
        of every record kept is appended, until the end or until a record
        makes the scan raise. */
    method FilterLoop(search: string, field: string, m: Matcher, b: Builtins) returns (raised: bool)
      requires Valid()
      modifies this
      ensures Valid()
      ensures allRecords == old(allRecords) && errorRecords == old(errorRecords)
      ensures schemaKeys == old(schemaKeys)
      ensures raised <==> FirstRaise(allRecords, search, field, m, b, |allRecords|).Some?
      ensures var first := FirstRaise(allRecords, search, field, m, b, |allRecords|);
        filteredIndices == Kept(allRecords, search, field, m, b, if first.Some? then first.value else |allRecords|)
    {
      filteredIndices := [];
      var idx := 0;
      while idx < |allRecords|
        invariant idx <= |allRecords|
        invariant allRecords == old(allRecords) && errorRecords == old(errorRecords)
        invariant schemaKeys == old(schemaKeys)
        invariant filteredIndices == Kept(allRecords, search, field, m, b, idx)
        invariant FirstRaise(allRecords, search, field, m, b, idx).None?
        invariant forall i :: 0 <= i < |filteredIndices| ==> filteredIndices[i] < idx
      {
        var verdict := ScanRecord(allRecords[idx], search, field, m, b);
        if verdict == Raise {
          FirstRaiseAt(allRecords, search, field, m, b, idx, |allRecords|);
          return true;
        }
        if verdict == Keep {
          filteredIndices := filteredIndices + [idx];
        }
        idx := idx + 1;
      }
      raised := false;
    }

    /** The rows `export_to_csv` hands to the CSV writer for the filtered
        records, with the keys of the last finished load in sorted order. */
    method ExportCsv(b: Builtins) returns (out: CsvOutcome)
      requires Valid()
      ensures out.NoData? <==> allRecords == []
      ensures out.Exported? ==>
        && StrictlySorted(out.keys)
        && (forall x :: x in out.keys <==> x in schemaKeys)
        && out.header == Header(out.keys)
        && out.rows == Rows(allRecords, filteredIndices, out.keys, b, |filteredIndices|)
    {
      if allRecords == [] {
        return NoData;
      }
      var keys := SortKeys(schemaKeys);
      var header := Header(keys);
      var rows: seq<seq<Cell>> := [];
      var k := 0;
      while k < |filteredIndices|
        invariant k <= |filteredIndices|
        invariant Rows(allRecords, filteredIndices, keys, b, k) == Ok(rows)
      {
        var row := WriteRow(allRecords[filteredIndices[k]], keys, b);
        if row.None? {
          RowsKeepError(allRecords, filteredIndices, keys, b, k + 1, |filteredIndices|);
          return Exported(keys, header, Err(rows));
        }
        rows := rows + [row.value];
        k := k + 1;
      }
      return Exported(keys, header, Ok(rows));
    }
  }
}
