/** The loader thread's `run`: it walks the lines of a JSONL file with
    1-based ordinals, skips lines that are blank once stripped, parses the
    others, counts valid and malformed lines, aggregates the keys and value
    types of top-level objects, and emits a signal per parsed line, per
    malformed line and per hundredth ordinal.

    `json.loads` is the parameter `parse` (`Err` carries `str(e)` of the
    `JSONDecodeError`). The thread's `should_stop` flag, which only ever goes
    from false to true, is the parameter `stopAt`: `Some(n)` when the loop
    head first reads it set before line `n`, `None` when it never does. The
    signals become a list of events in emission order; `finished(stats)` is
    the `stats` half of the outcome. */
module Ingestion {
  import opened Json
  import opened Text

  /** The `stats` dictionary: three counters, the key set, the key
      `Counter` and the per-key `Counter` of type names. */
  datatype Stats = Stats(
    totalLines: nat,
    validLines: nat,
    errorLines: nat,
    allKeys: set<string>,
    keyCounts: map<string, nat>,
    typeInfo: map<string, map<TypeTag, nat>>)

  /** The thread's signals: `progress`, `line_loaded` and `error_line`. */
  datatype Event =
    | Progress(current: nat, total: int)
    | LineLoaded(lineNum: nat, parsed: JsonValue, raw: string)
    | ErrorLine(lineNum: nat, raw: string, error: string)

  /** The file as the loop sees it: the lines read from it (terminators
      included), and the error that reading raises after the last of them,
      if any. A file that cannot be opened is `Source([], Some(message))`. */
  datatype Source = Source(lines: seq<string>, failure: Option<string>)

  /** Everything one run produces: the statistics handed to `finished`, and
      the signals emitted before it, in order. */
  datatype Outcome = Outcome(stats: Stats, events: seq<Event>)

  const NoStats := Stats(0, 0, 0, {}, map[], map[])

  /** A `Counter` lookup: a missing key counts zero. */
  function Count(m: map<string, nat>, k: string): nat
  {
    if k in m then m[k] else 0
  }

  function Tally(c: map<TypeTag, nat>, t: TypeTag): nat
  {
    if t in c then c[t] else 0
  }

  /** `type_info[key]`: the `defaultdict` gives an empty `Counter` for a new key. */
  function TagsOf(ti: map<string, map<TypeTag, nat>>, k: string): map<TypeTag, nat>
  {
    if k in ti then ti[k] else map[]
  }

  /** `counter[t] += 1`. */
  function Bump(c: map<TypeTag, nat>, t: TypeTag): map<TypeTag, nat>
  {
    c[t := Tally(c, t) + 1]
  }

  /** The sum of a type counter over all tags. */
  function TagSum(c: map<TypeTag, nat>): nat
  {
    Tally(c, TDict) + Tally(c, TList) + Tally(c, TStr) + Tally(c, TInt)
    + Tally(c, TFloat) + Tally(c, TBool) + Tally(c, TNoneType)
  }

  lemma BumpAddsOne(c: map<TypeTag, nat>, t: TypeTag)
    ensures TagSum(Bump(c, t)) == TagSum(c) + 1
    ensures Tally(Bump(c, t), t) == Tally(c, t) + 1
  {
    forall u | u != t
      ensures Tally(Bump(c, t), u) == Tally(c, u)
    {
    }
  }

  /** `all_keys.update(keys)` and `key_counts.update(keys)` for one object. */
  function CountKeys(st: Stats, obj: map<string, JsonValue>): Stats
  {
    st.(allKeys := st.allKeys + obj.Keys,
        keyCounts := map k | k in st.keyCounts.Keys + obj.Keys ::
          Count(st.keyCounts, k) + (if k in obj then 1 else 0))
  }

  /** The type counters after the loop over the object's items has handled
      the keys in `done`. */
  function AddTypes(ti: map<string, map<TypeTag, nat>>, obj: map<string, JsonValue>, done: set<string>)
    : map<string, map<TypeTag, nat>>
    requires done <= obj.Keys
  {
    map k | k in ti.Keys + done ::
      if k in done then Bump(TagsOf(ti, k), TypeOf(obj[k])) else ti[k]
  }

  /** The schema update for one top-level object. */
  function Observe(st: Stats, obj: map<string, JsonValue>): Stats
  {
    CountKeys(st, obj).(typeInfo := AddTypes(st.typeInfo, obj, obj.Keys))
  }

  /** The schema update for any parsed value: only objects contribute. */
  function ObserveValue(st: Stats, v: JsonValue): Stats
  {
    if v.JDict? then Observe(st, v.fields) else st
  }

  /** What one pass of the loop body does to `stats`, for the line with
      ordinal `n`, stripped to `line`, when it is not blank. */
  function StepStats(st: Stats, n: nat, line: string, parse: string -> Result<JsonValue, string>): Stats
  {
    match parse(line)
    case Ok(v) => ObserveValue(st.(totalLines := n, validLines := st.validLines + 1), v)
    case Err(_) => st.(totalLines := n, errorLines := st.errorLines + 1)
  }

  /** The signals one pass of the loop body emits for that line. */
  function StepEvents(n: nat, line: string, parse: string -> Result<JsonValue, string>): seq<Event>
  {
    var signal := match parse(line)
      case Ok(v) => LineLoaded(n, v, line)
      case Err(msg) => ErrorLine(n, line, msg);
    if n % 100 == 0 then [signal, Progress(n, -1)] else [signal]
  }

  /** Every line of the file after `line.strip()`. */
  function Stripped(lines: seq<string>): (r: seq<string>)
    ensures |r| == |lines|
  {
    seq(|lines|, i requires 0 <= i < |lines| => Strip(lines[i]))
  }

  /** `stats` after the loop body ran for the first `k` lines, given the
      lines already stripped: a line that is blank once stripped is skipped,
      the others are parsed with their 1-based ordinal. */
  function StatsAfter(stripped: seq<string>, parse: string -> Result<JsonValue, string>, k: nat): Stats
    requires k <= |stripped|
  {
    if k == 0 then NoStats
    else if stripped[k - 1] == [] then StatsAfter(stripped, parse, k - 1)
    else StepStats(StatsAfter(stripped, parse, k - 1), k, stripped[k - 1], parse)
  }

  /** The signals emitted while the loop body ran for the first `k` lines. */
  function SignalsAfter(stripped: seq<string>, parse: string -> Result<JsonValue, string>, k: nat): seq<Event>
    requires k <= |stripped|
  {
    if k == 0 then []
    else if stripped[k - 1] == [] then SignalsAfter(stripped, parse, k - 1)
    else SignalsAfter(stripped, parse, k - 1) + StepEvents(k, stripped[k - 1], parse)
  }

  lemma LoopNext(stripped: seq<string>, parse: string -> Result<JsonValue, string>, i: nat)
    requires i < |stripped|
    ensures StatsAfter(stripped, parse, i + 1)
         == if stripped[i] == [] then StatsAfter(stripped, parse, i)
            else StepStats(StatsAfter(stripped, parse, i), i + 1, stripped[i], parse)
    ensures SignalsAfter(stripped, parse, i + 1)
         == if stripped[i] == [] then SignalsAfter(stripped, parse, i)
            else SignalsAfter(stripped, parse, i) + StepEvents(i + 1, stripped[i], parse)
  {
  }

  /** The loop head's two `break` tests for ordinal `n`. A `max_lines` of
      `None` or `0` is falsy and sets no limit. */
  predicate Halts(n: nat, maxLines: Option<int>, stopAt: Option<nat>)
  {
    (stopAt.Some? && n >= stopAt.value) || (maxLines.Some? && maxLines.value != 0 && n > maxLines.value)
  }

  function Min(a: int, b: int): int
  {
    if a <= b then a else b
  }

  /** How many of `count` lines the loop body runs for: it runs until the
      loop head halts or the lines run out. */
  function Reach(count: nat, maxLines: Option<int>, stopAt: Option<nat>): (r: nat)
    ensures r <= count
  {
    var byStop := if stopAt.Some? then stopAt.value - 1 else count;
    var byMax := if maxLines.Some? && maxLines.value != 0 then maxLines.value else count;
    var r := Min(count, Min(byStop, byMax));
    if r < 0 then 0 else r
  }

  /** The message `run` emits when opening or reading the file fails. */
  function FileError(message: string): Event
  {
    ErrorLine(0, "", "File error: " + message)
  }

  /** The signals a run emits before `finished`. The read error is raised
      while fetching the line after the last good one, so it is reached only
      when the loop did not break. */
  function Emitted(src: Source, maxLines: Option<int>, stopAt: Option<nat>,
                   parse: string -> Result<JsonValue, string>): seq<Event>
  {
    var k := Reach(|src.lines|, maxLines, stopAt);
    var signals := SignalsAfter(Stripped(src.lines), parse, k);
    if k == |src.lines| && src.failure.Some? then signals + [FileError(src.failure.value)] else signals
  }

  /** The whole run: the statistics handed to `finished` and the signals
      emitted before it. */
  function Ingest(src: Source, maxLines: Option<int>, stopAt: Option<nat>,
                  parse: string -> Result<JsonValue, string>): Outcome
  {
    Outcome(StatsAfter(Stripped(src.lines), parse, Reach(|src.lines|, maxLines, stopAt)),
            Emitted(src, maxLines, stopAt, parse))
  }

  lemma AddTypesNone(ti: map<string, map<TypeTag, nat>>, obj: map<string, JsonValue>)
    ensures AddTypes(ti, obj, {}) == ti
  {
  }

  lemma AddTypesStep(ti: map<string, map<TypeTag, nat>>, obj: map<string, JsonValue>, done: set<string>, k: string)
    requires done <= obj.Keys && k in obj && k !in done
    ensures AddTypes(ti, obj, done + {k})
         == AddTypes(ti, obj, done)[k := Bump(TagsOf(AddTypes(ti, obj, done), k), TypeOf(obj[k]))]
  {
    assert TagsOf(AddTypes(ti, obj, done), k) == TagsOf(ti, k);
  }

  /** The loop over `parsed.items()` that bumps `type_info[key][type name]`
      once for every key of the object. */
  method CountTypes(ti: map<string, map<TypeTag, nat>>, obj: map<string, JsonValue>)
    returns (r: map<string, map<TypeTag, nat>>)
    ensures r == AddTypes(ti, obj, obj.Keys)
  {
    r := ti;
    var rest := obj.Keys;
    ghost var done: set<string> := {};
    AddTypesNone(ti, obj);
    while rest != {}
      invariant done <= obj.Keys && rest <= obj.Keys
      invariant forall k :: k in obj ==> (k in done <==> k !in rest)
      invariant r == AddTypes(ti, obj, done)
      decreases |rest|
    {
      var key :| key in rest;
      AddTypesStep(ti, obj, done, key);
      r := r[key := Bump(TagsOf(r, key), TypeOf(obj[key]))];
      done := done + {key};
      rest := rest - {key};
    }
    assert done == obj.Keys;
  }

  /** The body of the loop for a line that is not blank once stripped: the
      `try` block that parses and counts it, and the progress check. */
  method ProcessLine(stats0: Stats, events0: seq<Event>, lineNum: nat, line: string,
                     parse: string -> Result<JsonValue, string>)
    returns (stats: Stats, events: seq<Event>)
    ensures stats == StepStats(stats0, lineNum, line, parse)
    ensures events == events0 + StepEvents(lineNum, line, parse)
  {
    stats, events := stats0.(totalLines := lineNum), events0;
    assert events0 + StepEvents(lineNum, line, parse) == events0 + [StepEvents(lineNum, line, parse)[0]]
      + StepEvents(lineNum, line, parse)[1..];
    match parse(line) {
      case Ok(parsed) =>
        stats := stats.(validLines := stats.validLines + 1);
        if parsed.JDict? {
          var typeInfo := CountTypes(stats.typeInfo, parsed.fields);
          stats := CountKeys(stats, parsed.fields).(typeInfo := typeInfo);
        }
        events := events + [LineLoaded(lineNum, parsed, line)];
      case Err(msg) =>
        stats := stats.(errorLines := stats.errorLines + 1);
        events := events + [ErrorLine(lineNum, line, msg)];
    }
    if lineNum % 100 == 0 {
      events := events + [Progress(lineNum, -1)];
    }
  }

  /** The rest of the loop body once the two `break` tests passed, for the
      line with index `i`: it is stripped, skipped by the `continue` when
      nothing is left, and processed otherwise. */
  method Advance(lines: seq<string>, stats0: Stats, events0: seq<Event>, i: nat,
                 parse: string -> Result<JsonValue, string>)
    returns (stats: Stats, events: seq<Event>)
    requires i < |lines|
    requires stats0 == StatsAfter(Stripped(lines), parse, i) && events0 == SignalsAfter(Stripped(lines), parse, i)
    ensures stats == StatsAfter(Stripped(lines), parse, i + 1) && events == SignalsAfter(Stripped(lines), parse, i + 1)
  {
    var line := Strip(lines[i]);
    ghost var stripped := Stripped(lines);
    assert line == stripped[i];
    LoopNext(stripped, parse, i);
    stats, events := stats0, events0;
    if line != [] {
      stats, events := ProcessLine(stats, events, i + 1, line, parse);
    }
  }

  /** The loop head's two tests for the line with ordinal `lineNum`: the
      stop flag, then `max_lines`; either one breaks out of the loop. */
  method LoopHead(lineNum: nat, maxLines: Option<int>, stopAt: Option<nat>) returns (halt: bool)
    ensures halt <==> Halts(lineNum, maxLines, stopAt)
  {
    if stopAt.Some? && lineNum >= stopAt.value {
      return true;
    }
    if maxLines.Some? && maxLines.value != 0 && lineNum > maxLines.value {
      return true;
    }
    return false;
  }

  /** When the loop head lets line `i + 1` through, the loop reaches it. */
  lemma LoopContinues(count: nat, maxLines: Option<int>, stopAt: Option<nat>, i: nat)
    requires i < count && i <= Reach(count, maxLines, stopAt) && !Halts(i + 1, maxLines, stopAt)
    ensures i + 1 <= Reach(count, maxLines, stopAt)
  {
  }

  /** The loop leaves after `i` lines either because the lines ran out or
      because the loop head halts at line `i + 1`; either way the run is the
      folds over `i` lines, then the file error if every line was read. */
  lemma LoopExit(src: Source, maxLines: Option<int>, stopAt: Option<nat>,
                 parse: string -> Result<JsonValue, string>, i: nat)
    requires i <= |src.lines| && i <= Reach(|src.lines|, maxLines, stopAt)
    requires i == |src.lines| || Halts(i + 1, maxLines, stopAt)
    ensures var signals := SignalsAfter(Stripped(src.lines), parse, i);
      Ingest(src, maxLines, stopAt, parse)
      == Outcome(StatsAfter(Stripped(src.lines), parse, i),
                 if i == |src.lines| && src.failure.Some? then signals + [FileError(src.failure.value)] else signals)
  {
    assert Reach(|src.lines|, maxLines, stopAt) == i;
  }

  /** The `for` loop of `run`: it leaves after `i` lines, either because the
      lines ran out or because one of the two `break` tests fired at line
      `i + 1`, with the statistics and signals of those `i` lines. */
  method LineLoop(lines: seq<string>, maxLines: Option<int>, stopAt: Option<nat>,
                  parse: string -> Result<JsonValue, string>)
    returns (stats: Stats, events: seq<Event>, i: nat)
    ensures i <= |lines| && i <= Reach(|lines|, maxLines, stopAt)
    ensures i == |lines| || Halts(i + 1, maxLines, stopAt)
    ensures stats == StatsAfter(Stripped(lines), parse, i)
    ensures events == SignalsAfter(Stripped(lines), parse, i)
  {
    stats := NoStats;
    events := [];
    i := 0;
    while i < |lines|
      invariant i <= |lines|
      invariant i <= Reach(|lines|, maxLines, stopAt)
      invariant stats == StatsAfter(Stripped(lines), parse, i)
      invariant events == SignalsAfter(Stripped(lines), parse, i)
    {
      var lineNum := i + 1;
      var halt := LoopHead(lineNum, maxLines, stopAt);
      if halt {
        break;
      }
      LoopContinues(|lines|, maxLines, stopAt, i);
      stats, events := Advance(lines, stats, events, i, parse);
      i := lineNum;
    }
  }

  /** `FileLoaderThread.run`: the loop, then the file error when reading
      failed after the last line, then `finished(stats)`. */
  method Run(src: Source, maxLines: Option<int>, stopAt: Option<nat>,
             parse: string -> Result<JsonValue, string>)
    returns (stats: Stats, events: seq<Event>)
    ensures Outcome(stats, events) == Ingest(src, maxLines, stopAt, parse)
  {
    var i;
    stats, events, i := LineLoop(src.lines, maxLines, stopAt, parse);
    LoopExit(src, maxLines, stopAt, parse, i);
    if i == |src.lines| && src.failure.Some? {
      events := events + [FileError(src.failure.value)];
    }
  }
}
