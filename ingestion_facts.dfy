/** What `run` promises about its outcome, proved of the specification
    `Ingest` that the method `Ingestion.Run` is shown to compute. */
module IngestionFacts {
  import opened Json
  import opened Text
  import opened Ingestion

  /** The schema part of `stats` agrees with itself: the key set is the set
      of counted keys, every count is positive and at most the number of
      valid lines, and each key's type counter sums to its count. */
  ghost predicate SchemaConsistent(st: Stats)
  {
    && st.allKeys == st.keyCounts.Keys
    && st.typeInfo.Keys == st.keyCounts.Keys
    && CountsPositive(st.keyCounts)
    && CountsAtMost(st.keyCounts, st.validLines)
    && SumsMatch(st.typeInfo, st.keyCounts)
  }

  ghost predicate CountsPositive(kc: map<string, nat>)
  {
    forall k :: k in kc ==> 0 < Count(kc, k)
  }

  ghost predicate CountsAtMost(kc: map<string, nat>, n: nat)
  {
    forall k :: Count(kc, k) <= n
  }

  /** Each key's type counter sums to the key's count (both zero for a key
      never seen). */
  ghost predicate SumsMatch(ti: map<string, map<TypeTag, nat>>, kc: map<string, nat>)
  {
    forall k :: TagSum(TagsOf(ti, k)) == Count(kc, k)
  }

  /** `all_keys.update(keys)` adds exactly the keys of the object, and
      `key_counts.update(keys)` adds one to the count of every key of the
      object and leaves the other counts alone. */
  lemma CountKeysEffect(st: Stats, obj: map<string, JsonValue>)
    ensures CountKeys(st, obj).allKeys == st.allKeys + obj.Keys
    ensures CountKeys(st, obj).keyCounts.Keys == st.keyCounts.Keys + obj.Keys
    ensures forall k :: Count(CountKeys(st, obj).keyCounts, k) == Count(st.keyCounts, k) + (if k in obj then 1 else 0)
  {
  }

  /** The loop over the items adds one to the type counter of every key of
      the object, under that value's tag and under no other, and leaves the
      counters of every other key alone. */
  lemma AddTypesEffect(ti: map<string, map<TypeTag, nat>>, obj: map<string, JsonValue>)
    ensures AddTypes(ti, obj, obj.Keys).Keys == ti.Keys + obj.Keys
    ensures forall k, t :: Tally(TagsOf(AddTypes(ti, obj, obj.Keys), k), t)
                        == Tally(TagsOf(ti, k), t) + (if k in obj && TypeOf(obj[k]) == t then 1 else 0)
    ensures forall k :: k !in obj ==> TagsOf(AddTypes(ti, obj, obj.Keys), k) == TagsOf(ti, k)
    ensures forall k :: TagSum(TagsOf(AddTypes(ti, obj, obj.Keys), k)) == TagSum(TagsOf(ti, k)) + (if k in obj then 1 else 0)
  {
    forall k, t
      ensures Tally(TagsOf(AddTypes(ti, obj, obj.Keys), k), t)
           == Tally(TagsOf(ti, k), t) + (if k in obj && TypeOf(obj[k]) == t then 1 else 0)
    {
      AddTypesAt(ti, obj, k);
      if k in obj {
        BumpTally(TagsOf(ti, k), TypeOf(obj[k]), t);
      }
    }
    forall k
      ensures TagSum(TagsOf(AddTypes(ti, obj, obj.Keys), k)) == TagSum(TagsOf(ti, k)) + (if k in obj then 1 else 0)
    {
      AddTypesAt(ti, obj, k);
      if k in obj {
        BumpAddsOne(TagsOf(ti, k), TypeOf(obj[k]));
      }
    }
    forall k | k !in obj
      ensures TagsOf(AddTypes(ti, obj, obj.Keys), k) == TagsOf(ti, k)
    {
      AddTypesAt(ti, obj, k);
    }
  }

  /** The counters of one key after the loop over the items. */
  lemma AddTypesAt(ti: map<string, map<TypeTag, nat>>, obj: map<string, JsonValue>, k: string)
    ensures TagsOf(AddTypes(ti, obj, obj.Keys), k)
         == if k in obj then Bump(TagsOf(ti, k), TypeOf(obj[k])) else TagsOf(ti, k)
  {
  }

  /** `counter[u] += 1` moves the count of `u` and of no other tag. */
  lemma BumpTally(c: map<TypeTag, nat>, u: TypeTag, t: TypeTag)
    ensures Tally(Bump(c, u), t) == Tally(c, t) + (if u == t then 1 else 0)
  {
  }

  lemma CountsPreserved(st: Stats, obj: map<string, JsonValue>)
    requires CountsPositive(st.keyCounts) && CountsAtMost(st.keyCounts, st.validLines)
    ensures CountsPositive(CountKeys(st, obj).keyCounts)
    ensures CountsAtMost(CountKeys(st, obj).keyCounts, st.validLines + 1)
  {
    CountKeysEffect(st, obj);
  }

  lemma SumsPreserved(st: Stats, obj: map<string, JsonValue>)
    requires SumsMatch(st.typeInfo, st.keyCounts)
    ensures SumsMatch(AddTypes(st.typeInfo, obj, obj.Keys), CountKeys(st, obj).keyCounts)
  {
    CountKeysEffect(st, obj);
    AddTypesEffect(st.typeInfo, obj);
  }

  /** Counting one more valid line and observing an object keeps the schema
      consistent. */
  lemma ObservePreserves(st: Stats, obj: map<string, JsonValue>)
    requires SchemaConsistent(st)
    ensures SchemaConsistent(Observe(st.(validLines := st.validLines + 1), obj))
  {
    var st1 := st.(validLines := st.validLines + 1);
    CountKeysEffect(st1, obj);
    AddTypesEffect(st.typeInfo, obj);
    CountsPreserved(st, obj);
    SumsPreserved(st, obj);
    assert CountKeys(st1, obj).keyCounts == CountKeys(st, obj).keyCounts;
  }

  /** One pass of the loop body keeps the schema consistent. */
  lemma StepPreserves(st: Stats, n: nat, line: string, parse: string -> Result<JsonValue, string>)
    requires SchemaConsistent(st)
    ensures SchemaConsistent(StepStats(st, n, line, parse))
  {
    match parse(line)
    case Ok(v) =>
      if v.JDict? {
        ObservePreserves(st.(totalLines := n), v.fields);
      }
    case Err(_) =>
  }

  /** The schema changes only when the line parses to an object. */
  lemma StepSchemaOnlyFromObjects(st: Stats, n: nat, line: string, parse: string -> Result<JsonValue, string>)
    ensures !(parse(line).Ok? && parse(line).value.JDict?) ==>
      var st' := StepStats(st, n, line, parse);
      st'.allKeys == st.allKeys && st'.keyCounts == st.keyCounts && st'.typeInfo == st.typeInfo
  {
  }

  lemma {:induction false} LoopSchemaConsistent(stripped: seq<string>, parse: string -> Result<JsonValue, string>, k: nat)
    requires k <= |stripped|
    ensures SchemaConsistent(StatsAfter(stripped, parse, k))
  {
    if k > 0 {
      LoopSchemaConsistent(stripped, parse, k - 1);
      if stripped[k - 1] != [] {
        StepPreserves(StatsAfter(stripped, parse, k - 1), k, stripped[k - 1], parse);
      }
    }
  }

  /** The statistics `finished` carries satisfy the schema invariant. */
  lemma IngestSchemaConsistent(src: Source, maxLines: Option<int>, stopAt: Option<nat>,
                               parse: string -> Result<JsonValue, string>)
    ensures SchemaConsistent(Ingest(src, maxLines, stopAt, parse).stats)
  {
    LoopSchemaConsistent(Stripped(src.lines), parse, Reach(|src.lines|, maxLines, stopAt));
  }

  // ----- counters -----

  /** How many of the first `k` stripped lines are not blank. */
  function NonBlank(stripped: seq<string>, k: nat): nat
    requires k <= |stripped|
  {
    if k == 0 then 0 else NonBlank(stripped, k - 1) + (if stripped[k - 1] != [] then 1 else 0)
  }

  /** The ordinal of the last of the first `k` stripped lines that is not
      blank, or 0 when they are all blank. */
  function LastNonBlank(stripped: seq<string>, k: nat): nat
    requires k <= |stripped|
  {
    if k == 0 then 0 else if stripped[k - 1] != [] then k else LastNonBlank(stripped, k - 1)
  }

  /** How many `line_loaded` signals a list of events holds. */
  function Loaded(evs: seq<Event>): nat
  {
    if evs == [] then 0
    else Loaded(evs[..|evs| - 1]) + (if evs[|evs| - 1].LineLoaded? then 1 else 0)
  }

  /** How many `error_line` signals for a line (ordinal above 0) a list of
      events holds. */
  function Failed(evs: seq<Event>): nat
  {
    if evs == [] then 0
    else Failed(evs[..|evs| - 1]) + (if evs[|evs| - 1].ErrorLine? && evs[|evs| - 1].lineNum > 0 then 1 else 0)
  }

  lemma {:induction false} CountsAppend(a: seq<Event>, b: seq<Event>)
    ensures Loaded(a + b) == Loaded(a) + Loaded(b)
    ensures Failed(a + b) == Failed(a) + Failed(b)
    decreases |b|
  {
    if b == [] {
      assert a + b == a;
    } else {
      var b' := b[..|b| - 1];
      assert (a + b)[..|a + b| - 1] == a + b';
      CountsAppend(a, b');
    }
  }

  /** One pass of the loop body records its ordinal as `total_lines` and
      counts its line as valid or as an error, never both. */
  lemma StepStatsCounts(st: Stats, n: nat, line: string, parse: string -> Result<JsonValue, string>)
    ensures StepStats(st, n, line, parse).totalLines == n
    ensures StepStats(st, n, line, parse).validLines == st.validLines + (if parse(line).Ok? then 1 else 0)
    ensures StepStats(st, n, line, parse).errorLines == st.errorLines + (if parse(line).Err? then 1 else 0)
  {
    match parse(line)
    case Ok(v) =>
      var st' := st.(totalLines := n, validLines := st.validLines + 1);
      assert ObserveValue(st', v).validLines == st'.validLines;
    case Err(_) =>
  }

  /** The signals of one pass of the loop body hold one `line_loaded` for a
      line that parses and one `error_line` for a line that does not. */
  lemma StepSignalCounts(evs: seq<Event>, n: nat, line: string, parse: string -> Result<JsonValue, string>)
    requires n > 0
    ensures Loaded(evs + StepEvents(n, line, parse)) == Loaded(evs) + (if parse(line).Ok? then 1 else 0)
    ensures Failed(evs + StepEvents(n, line, parse)) == Failed(evs) + (if parse(line).Err? then 1 else 0)
  {
    var step := StepEvents(n, line, parse);
    CountsAppend(evs, step);
    var first := [step[0]];
    assert first[..0] == [];
    assert Loaded(first) == (if parse(line).Ok? then 1 else 0);
    assert Failed(first) == (if parse(line).Err? then 1 else 0);
    if |step| == 2 {
      assert step[..1] == first;
    } else {
      assert step == first;
    }
  }

  /** How the counters move from `i` lines to `i + 1`. */
  lemma StatsCountersNext(stripped: seq<string>, parse: string -> Result<JsonValue, string>, i: nat)
    requires i < |stripped|
    ensures var st := StatsAfter(stripped, parse, i);
      var st' := StatsAfter(stripped, parse, i + 1);
      var counted := stripped[i] != [];
      && st'.validLines == st.validLines + (if counted && parse(stripped[i]).Ok? then 1 else 0)
      && st'.errorLines == st.errorLines + (if counted && parse(stripped[i]).Err? then 1 else 0)
      && st'.totalLines == if counted then i + 1 else st.totalLines
  {
    LoopNext(stripped, parse, i);
    if stripped[i] != [] {
      StepStatsCounts(StatsAfter(stripped, parse, i), i + 1, stripped[i], parse);
    }
  }

  /** How the signal counts move from `i` lines to `i + 1`. */
  lemma SignalCountsNext(stripped: seq<string>, parse: string -> Result<JsonValue, string>, i: nat)
    requires i < |stripped|
    ensures var evs := SignalsAfter(stripped, parse, i);
      var evs' := SignalsAfter(stripped, parse, i + 1);
      var counted := stripped[i] != [];
      && Loaded(evs') == Loaded(evs) + (if counted && parse(stripped[i]).Ok? then 1 else 0)
      && Failed(evs') == Failed(evs) + (if counted && parse(stripped[i]).Err? then 1 else 0)
  {
    LoopNext(stripped, parse, i);
    if stripped[i] != [] {
      StepSignalCounts(SignalsAfter(stripped, parse, i), i + 1, stripped[i], parse);
    }
  }

  /** Two counts that start equal and move alike at every step stay
      equal. */
  lemma {:induction false} MovingAlike(a: seq<int>, b: seq<int>, k: nat)
    requires k < |a| && k < |b| && a[0] == b[0]
    requires forall i :: 0 <= i < k ==> a[i + 1] - a[i] == b[i + 1] - b[i]
    ensures a[k] == b[k]
  {
    if k > 0 {
      MovingAlike(a, b, k - 1);
    }
  }

  /** After `k` lines, valid plus error lines is the number of non-blank
      lines and `total_lines` is the ordinal of the last of them. */
  lemma {:induction false} LoopCounts(stripped: seq<string>, parse: string -> Result<JsonValue, string>, k: nat)
    requires k <= |stripped|
    ensures StatsAfter(stripped, parse, k).validLines + StatsAfter(stripped, parse, k).errorLines
         == NonBlank(stripped, k)
    ensures StatsAfter(stripped, parse, k).totalLines == LastNonBlank(stripped, k)
  {
    if k > 0 {
      LoopCounts(stripped, parse, k - 1);
      StatsCountersNext(stripped, parse, k - 1);
    }
  }

  /** After `k` lines, one `line_loaded` signal was emitted per valid line. */
  lemma LoopLoadedCount(stripped: seq<string>, parse: string -> Result<JsonValue, string>, k: nat)
    requires k <= |stripped|
    ensures StatsAfter(stripped, parse, k).validLines == Loaded(SignalsAfter(stripped, parse, k))
  {
    var valid := seq(k + 1, i requires 0 <= i <= k => StatsAfter(stripped, parse, i).validLines);
    var loaded := seq(k + 1, i requires 0 <= i <= k => Loaded(SignalsAfter(stripped, parse, i)));
    forall i | 0 <= i < k
      ensures valid[i + 1] - valid[i] == loaded[i + 1] - loaded[i]
    {
      StatsCountersNext(stripped, parse, i);
      SignalCountsNext(stripped, parse, i);
    }
    MovingAlike(valid, loaded, k);
  }

  /** After `k` lines, one `error_line` signal was emitted per error line. */
  lemma LoopFailedCount(stripped: seq<string>, parse: string -> Result<JsonValue, string>, k: nat)
    requires k <= |stripped|
    ensures StatsAfter(stripped, parse, k).errorLines == Failed(SignalsAfter(stripped, parse, k))
  {
    var errors := seq(k + 1, i requires 0 <= i <= k => StatsAfter(stripped, parse, i).errorLines);
    var failed := seq(k + 1, i requires 0 <= i <= k => Failed(SignalsAfter(stripped, parse, i)));
    forall i | 0 <= i < k
      ensures errors[i + 1] - errors[i] == failed[i + 1] - failed[i]
    {
      StatsCountersNext(stripped, parse, i);
      SignalCountsNext(stripped, parse, i);
    }
    MovingAlike(errors, failed, k);
  }

  lemma {:induction false} NonBlankAtMost(stripped: seq<string>, m: nat)
    requires m <= |stripped|
    ensures NonBlank(stripped, m) <= m
    ensures NonBlank(stripped, m) == m <==> forall j :: 0 <= j < m ==> stripped[j] != []
  {
    if m > 0 {
      NonBlankAtMost(stripped, m - 1);
    }
  }

  lemma {:induction false} NonBlankUpToLast(stripped: seq<string>, k: nat)
    requires k <= |stripped|
    ensures LastNonBlank(stripped, k) <= k
    ensures NonBlank(stripped, k) == NonBlank(stripped, LastNonBlank(stripped, k))
  {
    if k > 0 && stripped[k - 1] == [] {
      NonBlankUpToLast(stripped, k - 1);
    }
  }

  /** After `k` lines, valid plus error lines is at most `total_lines`, with
      equality exactly when no line up to `total_lines` was blank. */
  lemma LoopTotal(stripped: seq<string>, parse: string -> Result<JsonValue, string>, k: nat)
    requires k <= |stripped|
    ensures var st := StatsAfter(stripped, parse, k);
      && st.totalLines <= k
      && st.validLines + st.errorLines <= st.totalLines
      && (st.validLines + st.errorLines == st.totalLines <==>
            forall j :: 0 <= j < st.totalLines ==> stripped[j] != [])
  {
    LoopCounts(stripped, parse, k);
    NonBlankUpToLast(stripped, k);
    NonBlankAtMost(stripped, LastNonBlank(stripped, k));
  }

  /** `total_lines` is an ordinal, not a count: valid plus error lines never
      exceeds it, and equals it exactly when no blank line comes before the
      last line processed. */
  lemma CountsVersusTotal(src: Source, maxLines: Option<int>, stopAt: Option<nat>,
                          parse: string -> Result<JsonValue, string>)
    ensures var st := Ingest(src, maxLines, stopAt, parse).stats;
      && st.totalLines <= |src.lines|
      && st.validLines + st.errorLines <= st.totalLines
      && (st.validLines + st.errorLines == st.totalLines <==>
            forall j :: 0 <= j < st.totalLines ==> Strip(src.lines[j]) != [])
  {
    var stripped := Stripped(src.lines);
    LoopTotal(stripped, parse, Reach(|src.lines|, maxLines, stopAt));
    assert forall j :: 0 <= j < |src.lines| ==> stripped[j] == Strip(src.lines[j]);
  }

  /** Every line that is not blank once stripped is counted as exactly one of
      a valid line or an error line, blank lines are not counted, and the
      counters agree with the signals emitted. */
  lemma IngestCounts(src: Source, maxLines: Option<int>, stopAt: Option<nat>,
                     parse: string -> Result<JsonValue, string>)
    ensures var o := Ingest(src, maxLines, stopAt, parse);
      var k := Reach(|src.lines|, maxLines, stopAt);
      && o.stats.validLines + o.stats.errorLines == NonBlank(Stripped(src.lines), k)
      && o.stats.validLines == Loaded(o.events)
      && o.stats.errorLines == Failed(o.events)
  {
    var k := Reach(|src.lines|, maxLines, stopAt);
    var signals := SignalsAfter(Stripped(src.lines), parse, k);
    LoopCounts(Stripped(src.lines), parse, k);
    LoopLoadedCount(Stripped(src.lines), parse, k);
    LoopFailedCount(Stripped(src.lines), parse, k);
    if k == |src.lines| && src.failure.Some? {
      CountsAppend(signals, [FileError(src.failure.value)]);
      assert [FileError(src.failure.value)][..0] == [];
    }
  }
}
