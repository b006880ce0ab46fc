/** The rows `export_to_csv` hands to `csv.writer`: a header of `line_num`
    and the sorted keys, then one row per filtered record. */
module Csv {
  import opened Json
  import opened Text
  import opened Filter

  /** A value handed to `writerow`: the integer line number or a string. */
  datatype Cell = Num(n: int) | Str(s: string)

  /** `record['data'].get(key, '')` for an object: a missing key gives the
      empty string. */
  function Lookup(fields: map<string, JsonValue>, key: string): JsonValue
  {
    if key in fields then fields[key] else JStr("")
  }

  /** One cell: an object or array is JSON-dumped, anything else goes
      through `str`. */
  function CellText(v: JsonValue, b: Builtins): string
  {
    if v.JDict? || v.JList? then b.dumps(v) else PyStr(v, b)
  }

  /** The header row. */
  function Header(keys: seq<string>): (r: seq<Cell>)
    ensures |r| == 1 + |keys| && r[0] == Str("line_num")
    ensures forall j :: 0 <= j < |keys| ==> r[1 + j] == Str(keys[j])
  {
    [Str("line_num")] + seq(|keys|, j requires 0 <= j < |keys| => Str(keys[j]))
  }

  /** The row of one record, or `None` when `.get` raises because the record
      is not an object and there is at least one key to look up. */
  function Row(rec: Record, keys: seq<string>, b: Builtins): Option<seq<Cell>>
  {
    if keys == [] then Some([Num(rec.lineNum)])
    else if !rec.data.JDict? then None
    else Some([Num(rec.lineNum)]
              + seq(|keys|, j requires 0 <= j < |keys| => Str(CellText(Lookup(rec.data.fields, keys[j]), b))))
  }

  /** The inner loop of the export for one record: the line number, then
      one cell per key; `None` where `.get` raises. */
  method WriteRow(rec: Record, keys: seq<string>, b: Builtins) returns (row: Option<seq<Cell>>)
    ensures row == Row(rec, keys, b)
  {
    var cells := [Num(rec.lineNum)];
    var j := 0;
    while j < |keys|
      invariant j <= |keys|
      invariant j == 0 ==> cells == [Num(rec.lineNum)]
      invariant j > 0 ==> rec.data.JDict?
      invariant j > 0 ==>
        cells == [Num(rec.lineNum)] + seq(j, i requires 0 <= i < j => Str(CellText(Lookup(rec.data.fields, keys[i]), b)))
    {
      if !rec.data.JDict? {
        return None;
      }
      cells := cells + [Str(CellText(Lookup(rec.data.fields, keys[j]), b))];
      j := j + 1;
    }
    return Some(cells);
  }

  /** The data rows written for the first `k` filtered indices: `Ok` with all
      of them, or `Err` with those written before the row that raised. */
  function Rows(records: seq<Record>, indices: seq<nat>, keys: seq<string>, b: Builtins, k: nat)
    : Result<seq<seq<Cell>>, seq<seq<Cell>>>
    requires k <= |indices|
    requires forall i :: 0 <= i < |indices| ==> indices[i] < |records|
  {
    if k == 0 then Ok([])
    else
      var before := Rows(records, indices, keys, b, k - 1);
      if before.Err? then before
      else
        var row := Row(records[indices[k - 1]], keys, b);
        if row.None? then Err(before.value) else Ok(before.value + [row.value])
  }

  /** The row of a record: it exists exactly when there is no key to look
      up or the record is an object; it starts with the line number and has
      one cell per key, in key order, where a missing key gives an empty
      cell, a string is written as it is and an object or array as its JSON
      text. */
  lemma RowShape(rec: Record, keys: seq<string>, b: Builtins)
    ensures Row(rec, keys, b).Some? <==> keys == [] || rec.data.JDict?
    ensures Row(rec, keys, b).Some? ==>
      var row := Row(rec, keys, b).value;
      && |row| == |Header(keys)|
      && row[0] == Num(rec.lineNum)
      && forall j :: 0 <= j < |keys| ==>
           var v := Lookup(rec.data.fields, keys[j]);
           && (keys[j] !in rec.data.fields ==> row[1 + j] == Str(""))
           && (v.JStr? ==> row[1 + j] == Str(v.s))
           && (v.JDict? || v.JList? ==> row[1 + j] == Str(b.dumps(v)))
  {
    if keys != [] && rec.data.JDict? {
      var cells := seq(|keys|, j requires 0 <= j < |keys| => Str(CellText(Lookup(rec.data.fields, keys[j]), b)));
      var row := [Num(rec.lineNum)] + cells;
      assert Row(rec, keys, b) == Some(row);
      forall j | 0 <= j < |keys|
        ensures row[1 + j] == Str(CellText(Lookup(rec.data.fields, keys[j]), b))
      {
        assert row[1 + j] == cells[j];
      }
    }
  }

  /** The rows written for the first `k` filtered indices are the rows of
      those records, in order, up to the first record without a row; the
      export fails exactly when there is such a record. */
  lemma {:induction false} RowsExactly(records: seq<Record>, indices: seq<nat>, keys: seq<string>,
                                       b: Builtins, k: nat)
    requires k <= |indices|
    requires forall i :: 0 <= i < |indices| ==> indices[i] < |records|
    ensures var r := Rows(records, indices, keys, b, k);
      var rows := if r.Ok? then r.value else r.error;
      && (r.Ok? <==> forall i :: 0 <= i < k ==> Row(records[indices[i]], keys, b).Some?)
      && |rows| <= k
      && (r.Ok? ==> |rows| == k)
      && (r.Err? ==> |rows| < k && Row(records[indices[|rows|]], keys, b).None?)
      && forall i :: 0 <= i < |rows| ==> Row(records[indices[i]], keys, b) == Some(rows[i])
  {
    if k > 0 {
      RowsExactly(records, indices, keys, b, k - 1);
    }
  }

  /** Once a row has failed, the rows written stay as they were. */
  lemma {:induction false} RowsKeepError(records: seq<Record>, indices: seq<nat>, keys: seq<string>,
                                         b: Builtins, k: nat, k': nat)
    requires k <= k' <= |indices|
    requires forall i :: 0 <= i < |indices| ==> indices[i] < |records|
    requires Rows(records, indices, keys, b, k).Err?
    ensures Rows(records, indices, keys, b, k') == Rows(records, indices, keys, b, k)
    decreases k' - k
  {
    if k < k' {
      RowsKeepError(records, indices, keys, b, k, k' - 1);
    }
  }

  /** When every filtered record is an object, the export writes one row per
      filtered record, each as wide as the header. */
  lemma ObjectsExportFully(records: seq<Record>, indices: seq<nat>, keys: seq<string>, b: Builtins)
    requires forall i :: 0 <= i < |indices| ==> indices[i] < |records| && records[indices[i]].data.JDict?
    ensures Rows(records, indices, keys, b, |indices|).Ok?
    ensures var rows := Rows(records, indices, keys, b, |indices|).value;
      |rows| == |indices| && forall i :: 0 <= i < |rows| ==> |rows[i]| == |Header(keys)|
  {
    RowsExactly(records, indices, keys, b, |indices|);
    var rows := Rows(records, indices, keys, b, |indices|).value;
    forall i | 0 <= i < |rows|
      ensures |rows[i]| == |Header(keys)|
    {
      RowShape(records[indices[i]], keys, b);
    }
  }
}
