/** What `apply_filters` promises about the list it builds. */
module FilterFacts {
  import opened Json
  import opened Text
  import opened Filter

  predicate Increasing(s: seq<nat>)
  {
    forall i, j :: 0 <= i < j < |s| ==> s[i] < s[j]
  }

  /** The scan keeps, in increasing order, exactly the indices below `k` of
      the records it keeps. */
  lemma {:induction false} KeptExactly(records: seq<Record>, search: string, field: string, m: Matcher,
                                       b: Builtins, k: nat)
    requires k <= |records|
    ensures Increasing(Kept(records, search, field, m, b, k))
    ensures forall x :: x in Kept(records, search, field, m, b, k) ==> x < k
    ensures forall x :: x in Kept(records, search, field, m, b, k) <==>
      0 <= x < k && Check(records[x], search, field, m, b) == Keep
  {
    if k > 0 {
      KeptExactly(records, search, field, m, b, k - 1);
      var prev := Kept(records, search, field, m, b, k - 1);
      var next := Kept(records, search, field, m, b, k);
      if Check(records[k - 1], search, field, m, b) == Keep {
        forall i, j | 0 <= i < j < |next|
          ensures next[i] < next[j]
        {
          assert next[i] == prev[i] && prev[i] in prev;
          if j < |prev| {
            assert next[j] == prev[j];
          }
        }
      }
    }
  }

  /** The first record that raises stays the first one however many
      records follow it. */
  lemma {:induction false} FirstRaiseAt(records: seq<Record>, search: string, field: string, m: Matcher,
                                        b: Builtins, j: nat, k: nat)
    requires j < k <= |records|
    requires FirstRaise(records, search, field, m, b, j).None?
    requires Check(records[j], search, field, m, b) == Raise
    ensures FirstRaise(records, search, field, m, b, k) == Some(j)
  {
    if k > j + 1 {
      FirstRaiseAt(records, search, field, m, b, j, k - 1);
    }
  }

  /** With an empty search text and no field chosen every record is kept, so
      the shortcut `list(range(n))` is what the scan would build. */
  lemma {:induction false} IdentityAgrees(records: seq<Record>, m: Matcher, b: Builtins, k: nat)
    requires k <= |records|
    ensures Kept(records, [], AllFields, m, b, k) == Range(k)
  {
    if k > 0 {
      IdentityAgrees(records, m, b, k - 1);
      assert Range(k) == Range(k - 1) + [k - 1];
    }
  }

  /** For an object record the verdict is the conjunction of the two tests:
      the chosen field is a key of the object, and the search text, when not
      empty, matches `str` of that field's value, or the raw line when no
      field is chosen. An object record never makes the scan raise. */
  lemma ObjectVerdict(rec: Record, search: string, field: string, m: Matcher, b: Builtins)
    requires rec.data.JDict?
    ensures Check(rec, search, field, m, b) != Raise
    ensures Check(rec, search, field, m, b) == Keep <==>
      && (field == AllFields || field in rec.data.fields)
      && (search == [] ||
          Matches(m, search, if field == AllFields then rec.raw else PyStr(rec.data.fields[field], b), b))
  {
  }

  /** Only a record whose value is a number, a boolean or `null` (when a field
      is chosen), or an array or a string (when a field is chosen and the
      search text is not empty), can make the scan raise. */
  lemma RaiseOnlyFromNonObjects(rec: Record, search: string, field: string, m: Matcher, b: Builtins)
    ensures Check(rec, search, field, m, b) == Raise <==>
      && field != AllFields
      && !rec.data.JDict?
      && (!(rec.data.JList? || rec.data.JStr?) || (Contains(rec.data, field) == Some(true) && search != []))
  {
  }

  /** Whenever `apply_filters` refreshes the views, whether or not the table
      refresh then raises, the list it shows is
      increasing, within range, and holds exactly the records that pass both
      tests; the identity shortcut is no exception. */
  lemma ShownExactly(records: seq<Record>, text: string, useRegex: bool, field: string, b: Builtins,
                     keys: set<string>)
    requires ApplyFilters(records, text, useRegex, field, b, keys).Shown?
          || ApplyFilters(records, text, useRegex, field, b, keys).TableRaised?
    ensures var search := Strip(text);
      var m := if useRegex && search != [] then Pattern(b.compile(search).value) else Plain;
      var shown := ApplyFilters(records, text, useRegex, field, b, keys).indices;
      && Increasing(shown)
      && (forall x :: x in shown <==> 0 <= x < |records| && Check(records[x], search, field, m, b) == Keep)
  {
    var search := Strip(text);
    var m := if useRegex && search != [] then Pattern(b.compile(search).value) else Plain;
    RefreshedList(records, text, useRegex, field, b, keys);
    KeptExactly(records, search, field, m, b, |records|);
    if search == [] && field == AllFields {
      IdentityAgrees(records, m, b, |records|);
    }
  }

  /** The list a refresh shows is the identity for an empty text and no
      field, and the scan's list otherwise. */
  lemma RefreshedList(records: seq<Record>, text: string, useRegex: bool, field: string, b: Builtins,
                      keys: set<string>)
    requires ApplyFilters(records, text, useRegex, field, b, keys).Shown?
          || ApplyFilters(records, text, useRegex, field, b, keys).TableRaised?
    ensures var search := Strip(text);
      var m := if useRegex && search != [] then Pattern(b.compile(search).value) else Plain;
      ApplyFilters(records, text, useRegex, field, b, keys).indices
        == if search == [] && field == AllFields then Range(|records|) else Kept(records, search, field, m, b, |records|)
  {
  }

  /** `apply_filters` stops at an invalid pattern exactly when there are
      records, the regex box is checked, the stripped search text is not
      empty and it does not compile; the list is then left empty, not at its
      previous value. */
  lemma InvalidRegexExactly(records: seq<Record>, text: string, useRegex: bool, field: string, b: Builtins,
                            keys: set<string>)
    ensures ApplyFilters(records, text, useRegex, field, b, keys) == InvalidRegex <==>
      records != [] && useRegex && Strip(text) != [] && b.compile(Strip(text)).None?
  {
  }

  /** When every record holds an object, neither the scan nor the table
      refresh raises: a valid filter always refreshes the views. */
  lemma ObjectsNeverRaise(records: seq<Record>, text: string, useRegex: bool, field: string, b: Builtins,
                          keys: set<string>)
    requires forall i :: 0 <= i < |records| ==> records[i].data.JDict?
    ensures !ApplyFilters(records, text, useRegex, field, b, keys).Aborts()
  {
    var search := Strip(text);
    var m := if useRegex && search != [] && b.compile(search).Some? then Pattern(b.compile(search).value) else Plain;
    forall i | 0 <= i < |records|
      ensures Check(records[i], search, field, m, b) != Raise
    {
      ObjectVerdict(records[i], search, field, m, b);
    }
  }

  /** When the scan raises at record `j`, the list left behind holds exactly
      the kept records before `j`. */
  lemma RaisedPrefix(records: seq<Record>, text: string, useRegex: bool, field: string, b: Builtins,
                     keys: set<string>)
    requires ApplyFilters(records, text, useRegex, field, b, keys).Raised?
    ensures var search := Strip(text);
      var m := if useRegex && search != [] then Pattern(b.compile(search).value) else Plain;
      var j := FirstRaise(records, search, field, m, b, |records|);
      var partial := ApplyFilters(records, text, useRegex, field, b, keys).partial;
      && j.Some?
      && Check(records[j.value], search, field, m, b) == Raise
      && Increasing(partial)
      && (forall x :: x in partial <==> 0 <= x < j.value && Check(records[x], search, field, m, b) == Keep)
  {
    var search := Strip(text);
    var m := if useRegex && search != [] then Pattern(b.compile(search).value) else Plain;
    var j := FirstRaise(records, search, field, m, b, |records|);
    KeptExactly(records, search, field, m, b, j.value);
  }

  /** Whether the scan raises on a record when the field is the empty
      string, the text the field combo box reports right after `clear()`.
      `"" in data` raises for a number, a boolean or `null`. It holds for
      every string and for an array holding `""`, and for those the `.get`
      that follows raises once the search text is not empty. An object
      never raises. */
  predicate RaisesOnEmptyField(rec: Record, search: string)
  {
    || !(rec.data.JDict? || rec.data.JList? || rec.data.JStr?)
    || (search != [] && (rec.data.JStr? || (rec.data.JList? && JStr([]) in rec.data.items)))
  }

  lemma EmptyFieldCheck(rec: Record, search: string, m: Matcher, b: Builtins)
    ensures Check(rec, search, [], m, b) == Raise <==> RaisesOnEmptyField(rec, search)
  {
    if rec.data.JStr? {
      assert [] <= rec.data.s[0..];
    }
  }

  /** The scan of `apply_filters` with the empty field raises exactly when
      the pattern, if regex mode asks for one, compiles and some record
      raises in the sense of `RaisesOnEmptyField`. */
  lemma EmptyFieldRaises(records: seq<Record>, text: string, useRegex: bool, b: Builtins, keys: set<string>)
    ensures ApplyFilters(records, text, useRegex, [], b, keys).Raised? <==>
      && !(useRegex && Strip(text) != [] && b.compile(Strip(text)).None?)
      && exists i :: 0 <= i < |records| && RaisesOnEmptyField(records[i], Strip(text))
  {
    var search := Strip(text);
    if records != [] && !(useRegex && search != [] && b.compile(search).None?) {
      var m := if useRegex && search != [] then Pattern(b.compile(search).value) else Plain;
      forall i | 0 <= i < |records|
        ensures Check(records[i], search, [], m, b) == Raise <==> RaisesOnEmptyField(records[i], search)
      {
        EmptyFieldCheck(records[i], search, m, b);
      }
    }
  }

  /** The table refresh right after a load, when every record is shown,
      raises exactly when the load found a key and one of the first
      `TableRows` records is not an object. */
  lemma TableAfterLoad(records: seq<Record>, keys: set<string>)
    ensures TableRaises(records, Range(|records|), keys) <==>
      keys != {} && exists i :: 0 <= i < |records| && i < TableRows && !records[i].data.JDict?
  {
    var shown := Range(|records|);
    if keys != {} && exists i :: 0 <= i < |records| && i < TableRows && !records[i].data.JDict? {
      var i :| 0 <= i < |records| && i < TableRows && !records[i].data.JDict?;
      assert shown[i] == i;
    }
  }
}
