/** The viewer's filter: which records `apply_filters` keeps for a search
    text, a regex flag and a field choice, and what it leaves behind when the
    pattern does not compile or a record makes the scan raise.

    Python's `str.lower()`, `str()` of a non-string value, `json.dumps`
    and `re.compile(text, re.IGNORECASE)` are parameters bundled in
    `Builtins`; `compile` gives `None` where `re.compile` raises `re.error`,
    and the compiled pattern is the predicate "`pattern.search(s)` is not
    `None`". */
module Filter {
  import opened Json
  import opened Text

  /** One entry of `all_records`: the line ordinal, the parsed value and the
      stripped line. */
  datatype Record = Record(lineNum: nat, data: JsonValue, raw: string)

  datatype Builtins = Builtins(
    lower: string -> string,
    show: JsonValue -> string,
    dumps: JsonValue -> string,
    compile: string -> Option<string -> bool>)

  /** How the search text is matched: case-insensitive containment, or a
      compiled pattern. */
  datatype Matcher = Plain | Pattern(search: string -> bool)

  /** What the scan does with one record. `Raise` is an exception that
      escapes `apply_filters`. Every caller of `apply_filters` is a slot, and
      under PyQt6 an exception leaving a slot aborts the application. */
  datatype Verdict = Keep | Drop | Raise

  /** What a call of `apply_filters` leaves in `filtered_indices`. */
  datatype FilterOutcome =
    | NoRecords                      // `all_records` is empty: nothing changes
    | Shown(indices: seq<nat>)       // the views are refreshed with these indices
    | TableRaised(indices: seq<nat>) // the list is set, and refreshing the table raised: the application aborts
    | InvalidRegex                   // the list was reset to `[]` and the call returned
    | Raised(partial: seq<nat>)      // the scan raised and the application aborts; the list was built this far
  {
    /** The call ended with an exception escaping, which aborts the
        application. */
    predicate Aborts()
    {
      TableRaised? || Raised?
    }
  }

  /** The first entry of the field combo box, which means "no field". */
  const AllFields: string := "All Fields"

  /** `str(v)`: a string is itself, anything else is shown by Python. */
  function PyStr(v: JsonValue, b: Builtins): string
  {
    if v.JStr? then v.s else b.show(v)
  }

  /** `field in data` for whatever `json.loads` returned: key membership for
      an object, element equality for an array, substring for a string, and a
      `TypeError` (`None`) for a number, a boolean or `null`. */
  function Contains(data: JsonValue, field: string): (r: Option<bool>)
    ensures r.None? <==> !(data.JDict? || data.JList? || data.JStr?)
  {
    match data
    case JDict(fields) => Some(field in fields)
    case JList(items) => Some(JStr(field) in items)
    case JStr(s) => Some(IsSubstring(field, s))
    case _ => None
  }

  /** The text searched in a record: `str(data.get(field, ""))` when a field is
      chosen, which raises (`None`) unless `data` is an object, or the raw line. */
  function Target(rec: Record, field: string, b: Builtins): Option<string>
  {
    if field == AllFields then Some(rec.raw)
    else if rec.data.JDict? then
      Some(if field in rec.data.fields then PyStr(rec.data.fields[field], b) else "")
    else None
  }

  /** The search test: `pattern.search(search_in)` in regex mode, otherwise
      `search_text.lower() in search_in.lower()`. */
  function Matches(m: Matcher, search: string, target: string, b: Builtins): bool
  {
    match m
    case Plain => IsSubstring(b.lower(search), b.lower(target))
    case Pattern(p) => p(target)
  }

  /** The body of the scan for one record: the field test, then the search
      test when the text is not empty. */
  function Check(rec: Record, search: string, field: string, m: Matcher, b: Builtins): Verdict
  {
    var present := if field == AllFields then Some(true) else Contains(rec.data, field);
    if present.None? then Raise
    else if !present.value then Drop
    else if search == [] then Keep
    else
      var target := Target(rec, field, b);
      if target.None? then Raise
      else if Matches(m, search, target.value, b) then Keep
      else Drop
  }

  /** The body of the scan loop for one record, with the two places where
      an exception escapes; it decides as `Check` does. */
  method ScanRecord(record: Record, search: string, field: string, m: Matcher, b: Builtins) returns (v: Verdict)
    ensures v == Check(record, search, field, m, b)
  {
    var matched := true;
    if field != AllFields {
      var present := Contains(record.data, field);
      if present.None? {
        return Raise;
      }
      if !present.value {
        matched := false;
      }
    }
    if matched && search != [] {
      var searchIn: string;
      if field != AllFields {
        if !record.data.JDict? {
          return Raise;
        }
        searchIn := if field in record.data.fields then PyStr(record.data.fields[field], b) else "";
      } else {
        searchIn := record.raw;
      }
      matched := Matches(m, search, searchIn, b);
    }
    return if matched then Keep else Drop;
  }

  /** The indices the scan keeps among the first `k` records. */
  function Kept(records: seq<Record>, search: string, field: string, m: Matcher, b: Builtins, k: nat): seq<nat>
    requires k <= |records|
  {
    if k == 0 then []
    else Kept(records, search, field, m, b, k - 1)
         + (if Check(records[k - 1], search, field, m, b) == Keep then [k - 1] else [])
  }

  /** The index of the first of the first `k` records that makes the scan
      raise, if any. */
  function FirstRaise(records: seq<Record>, search: string, field: string, m: Matcher, b: Builtins, k: nat)
    : (r: Option<nat>)
    requires k <= |records|
    ensures r.Some? ==> r.value < k && Check(records[r.value], search, field, m, b) == Raise
    ensures r.Some? ==> forall i :: 0 <= i < r.value ==> Check(records[i], search, field, m, b) != Raise
    ensures r.None? ==> forall i :: 0 <= i < k ==> Check(records[i], search, field, m, b) != Raise
  {
    if k == 0 then None
    else
      var earlier := FirstRaise(records, search, field, m, b, k - 1);
      if earlier.Some? then earlier
      else if Check(records[k - 1], search, field, m, b) == Raise then Some(k - 1)
      else None
  }

  /** `populate_table_view` shows at most this many of the filtered
      records. */
  const TableRows: nat := 1000

  /** Whether `populate_table_view` raises: when there are records and the
      last finished load found at least one key, it calls
      `data.get(key, "")` on each of the first `TableRows` records shown, and
      only an object has `get`. */
  predicate TableRaises(records: seq<Record>, shown: seq<nat>, keys: set<string>)
  {
    && records != []
    && keys != {}
    && exists i :: 0 <= i < |shown| && i < TableRows && shown[i] < |records| && !records[shown[i]].data.JDict?
  }

  /** The end of `apply_filters` once the list is built: the tree and the
      table are refreshed, and the table refresh may raise. */
  function Refreshed(records: seq<Record>, shown: seq<nat>, keys: set<string>): FilterOutcome
  {
    if TableRaises(records, shown, keys) then TableRaised(shown) else Shown(shown)
  }

  /** `list(range(n))`. */
  function Range(n: nat): (r: seq<nat>)
    ensures |r| == n && forall i :: 0 <= i < n ==> r[i] == i
  {
    seq(n, i requires 0 <= i => i)
  }

  /** `apply_filters` on the record list, the search box text (stripped
      here), the regex check box and the field combo box, with the key set
      of the last finished load that the table refresh reads. */
  function ApplyFilters(records: seq<Record>, text: string, useRegex: bool, field: string, b: Builtins,
                        keys: set<string>): FilterOutcome
  {
    var search := Strip(text);
    if records == [] then NoRecords
    else if search == [] && field == AllFields then Refreshed(records, Range(|records|), keys)
    else if useRegex && search != [] && b.compile(search).None? then InvalidRegex
    else
      var m := if useRegex && search != [] then Pattern(b.compile(search).value) else Plain;
      var raised := FirstRaise(records, search, field, m, b, |records|);
      if raised.Some? then Raised(Kept(records, search, field, m, b, raised.value))
      else Refreshed(records, Kept(records, search, field, m, b, |records|), keys)
  }
}
