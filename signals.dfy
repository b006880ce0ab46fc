/** Which signals `run` emits, in which order, and how the two `break`
    tests bound them, proved of the specification `Ingest`. */
module IngestionSignals {
  import opened Json
  import opened Text
  import opened Ingestion
  import opened IngestionFacts

  /** The line ordinal a signal refers to; `progress` carries it as `current`
      and the file error carries 0. */
  function Ordinal(e: Event): nat
  {
    match e
    case Progress(current, _) => current
    case LineLoaded(n, _, _) => n
    case ErrorLine(n, _, _) => n
  }

  /** `e` comes no later than `f`: an earlier line, or the same line with the
      line signal before the progress signal. */
  predicate Before(e: Event, f: Event)
  {
    Ordinal(e) < Ordinal(f) || (Ordinal(e) == Ordinal(f) && !e.Progress? && f.Progress?)
  }

  predicate InOrder(s: seq<Event>)
  {
    forall i, j :: 0 <= i < j < |s| ==> Before(s[i], s[j])
  }

  /** The signals of one pass of the loop body all carry its ordinal and come
      in order: the line signal, then possibly the progress signal. */
  lemma StepEventsShape(n: nat, line: string, parse: string -> Result<JsonValue, string>)
    ensures forall e :: e in StepEvents(n, line, parse) ==> Ordinal(e) == n
    ensures InOrder(StepEvents(n, line, parse))
    ensures !StepEvents(n, line, parse)[0].Progress?
  {
  }

  /** A signal is among those of the first `k` lines exactly when its line is
      one of them, is not blank, and the loop body emits that signal for it. */
  lemma {:induction false} SignalsAt(stripped: seq<string>, parse: string -> Result<JsonValue, string>, k: nat, e: Event)
    requires k <= |stripped|
    ensures e in SignalsAfter(stripped, parse, k) <==>
      && 1 <= Ordinal(e) <= k
      && stripped[Ordinal(e) - 1] != []
      && e in StepEvents(Ordinal(e), stripped[Ordinal(e) - 1], parse)
  {
    if k > 0 {
      SignalsAt(stripped, parse, k - 1, e);
      LoopNext(stripped, parse, k - 1);
      var prev := SignalsAfter(stripped, parse, k - 1);
      if stripped[k - 1] != [] {
        var step := StepEvents(k, stripped[k - 1], parse);
        StepEventsShape(k, stripped[k - 1], parse);
        assert e in prev + step <==> e in prev || e in step;
        if Ordinal(e) == k {
          assert e !in prev;
        } else {
          assert e !in step;
        }
      }
    }
  }

  lemma InOrderAppend(a: seq<Event>, b: seq<Event>, n: nat)
    requires InOrder(a) && InOrder(b)
    requires forall e :: e in a ==> Ordinal(e) < n
    requires forall e :: e in b ==> Ordinal(e) == n
    ensures InOrder(a + b)
  {
    forall i, j | 0 <= i < j < |a + b|
      ensures Before((a + b)[i], (a + b)[j])
    {
      if j < |a| {
        assert (a + b)[i] == a[i] && (a + b)[j] == a[j];
      } else if i < |a| {
        assert (a + b)[i] == a[i] && (a + b)[j] == b[j - |a|];
      } else {
        assert (a + b)[i] == b[i - |a|] && (a + b)[j] == b[j - |a|];
      }
    }
  }

  /** The signals come in line order, the line signal of a line before its
      progress signal; so the line signals have strictly increasing ordinals. */
  lemma {:induction false} SignalsInOrder(stripped: seq<string>, parse: string -> Result<JsonValue, string>, k: nat)
    requires k <= |stripped|
    ensures InOrder(SignalsAfter(stripped, parse, k))
  {
    if k > 0 {
      SignalsInOrder(stripped, parse, k - 1);
      LoopNext(stripped, parse, k - 1);
      if stripped[k - 1] != [] {
        var a := SignalsAfter(stripped, parse, k - 1);
        forall e | e in a
          ensures Ordinal(e) < k
        {
          SignalsAt(stripped, parse, k - 1, e);
        }
        StepEventsShape(k, stripped[k - 1], parse);
        InOrderAppend(a, StepEvents(k, stripped[k - 1], parse), k);
      }
    }
  }

  /** The loop reaches line `n` exactly when `n` is a line of the file and the
      loop head does not halt at it (the two tests only ever turn from passing
      to halting as the ordinal grows). */
  lemma ReachIsFirstHalt(count: nat, maxLines: Option<int>, stopAt: Option<nat>, n: nat)
    ensures 1 <= n <= Reach(count, maxLines, stopAt) <==> 1 <= n <= count && !Halts(n, maxLines, stopAt)
  {
  }

  /** The loop stops before the first ordinal at which the loop head halts. */
  lemma ReachStopsAt(count: nat, maxLines: Option<int>, stopAt: Option<nat>, n: nat)
    requires 1 <= n <= count && Halts(n, maxLines, stopAt)
    requires n == 1 || !Halts(n - 1, maxLines, stopAt)
    ensures Reach(count, maxLines, stopAt) == n - 1
  {
  }

  /** A signal with a line ordinal is emitted by a run exactly when its line
      is a line of the file that the loop head let through, is not blank once
      stripped, and the loop body emits that signal for it. */
  lemma LineSignalAt(src: Source, maxLines: Option<int>, stopAt: Option<nat>,
                     parse: string -> Result<JsonValue, string>, e: Event, n: nat)
    requires Ordinal(e) == n > 0
    ensures e in Emitted(src, maxLines, stopAt, parse) <==>
      && n <= |src.lines| && !Halts(n, maxLines, stopAt)
      && Strip(src.lines[n - 1]) != []
      && e in StepEvents(n, Strip(src.lines[n - 1]), parse)
  {
    var stripped := Stripped(src.lines);
    assert |stripped| == |src.lines|;
    var signals := SignalsAfter(stripped, parse, Reach(|src.lines|, maxLines, stopAt));
    EmittedLineSignal(src, maxLines, stopAt, parse, e);
    assert e in Emitted(src, maxLines, stopAt, parse) <==> e in signals;
    ReachedSignal(stripped, maxLines, stopAt, parse, e, n);
    if n <= |src.lines| {
      StrippedAt(src.lines, n - 1);
    } else {
      assert e !in signals;
    }
  }

  lemma StrippedAt(lines: seq<string>, i: nat)
    requires i < |lines|
    ensures Stripped(lines)[i] == Strip(lines[i])
  {
  }

  /** A line signal is among those of the lines the loop reaches exactly
      when the loop head lets its line through and the loop body emits it. */
  lemma ReachedSignal(stripped: seq<string>, maxLines: Option<int>, stopAt: Option<nat>,
                      parse: string -> Result<JsonValue, string>, e: Event, n: nat)
    requires Ordinal(e) == n > 0
    ensures e in SignalsAfter(stripped, parse, Reach(|stripped|, maxLines, stopAt)) <==>
      && n <= |stripped| && !Halts(n, maxLines, stopAt)
      && stripped[n - 1] != [] && e in StepEvents(n, stripped[n - 1], parse)
  {
    SignalsAt(stripped, parse, Reach(|stripped|, maxLines, stopAt), e);
    ReachIsFirstHalt(|stripped|, maxLines, stopAt, n);
  }

  lemma EmittedLineSignal(src: Source, maxLines: Option<int>, stopAt: Option<nat>,
                          parse: string -> Result<JsonValue, string>, e: Event)
    requires Ordinal(e) > 0
    ensures e in Emitted(src, maxLines, stopAt, parse)
      <==> e in SignalsAfter(Stripped(src.lines), parse, Reach(|src.lines|, maxLines, stopAt))
  {
    if |src.lines| == Reach(|src.lines|, maxLines, stopAt) && src.failure.Some? {
      assert Ordinal(FileError(src.failure.value)) == 0;
    }
  }

  /** A signal with ordinal 0 is emitted by a run exactly when it is the file
      error, the file failed, and the loop ran through every line. */
  lemma FileErrorAt(src: Source, maxLines: Option<int>, stopAt: Option<nat>,
                    parse: string -> Result<JsonValue, string>, e: Event)
    requires Ordinal(e) == 0
    ensures e in Emitted(src, maxLines, stopAt, parse) <==>
      && src.failure.Some? && e == FileError(src.failure.value)
      && (|src.lines| == 0 || !Halts(|src.lines|, maxLines, stopAt))
  {
    var k := Reach(|src.lines|, maxLines, stopAt);
    var stripped := Stripped(src.lines);
    SignalsAt(stripped, parse, k, e);
    assert e !in SignalsAfter(stripped, parse, k);
    ReachIsFirstHalt(|src.lines|, maxLines, stopAt, |src.lines|);
  }

  /** One pass of the loop body emits `progress` only at multiples of 100. */
  lemma StepProgress(n: nat, line: string, parse: string -> Result<JsonValue, string>, total: int)
    ensures Progress(n, total) in StepEvents(n, line, parse) <==> n % 100 == 0 && total == -1
  {
    assert !StepEvents(n, line, parse)[0].Progress?;
  }

  /** One pass of the loop body emits `line_loaded` only for a line that parses. */
  lemma StepLoaded(n: nat, line: string, parse: string -> Result<JsonValue, string>, v: JsonValue, raw: string)
    ensures LineLoaded(n, v, raw) in StepEvents(n, line, parse) <==> raw == line && parse(line) == Ok(v)
  {
  }

  /** One pass of the loop body emits `error_line` only for a line that does not parse. */
  lemma StepError(n: nat, line: string, parse: string -> Result<JsonValue, string>, raw: string, msg: string)
    ensures ErrorLine(n, raw, msg) in StepEvents(n, line, parse) <==> raw == line && parse(line) == Err(msg)
  {
  }

  /** `progress(n, -1)` is emitted exactly for the lines the loop reaches
      that are not blank and whose ordinal is a multiple of 100, whether they
      parse or not. */
  lemma ProgressSignals(src: Source, maxLines: Option<int>, stopAt: Option<nat>,
                        parse: string -> Result<JsonValue, string>, n: nat, total: int)
    ensures Progress(n, total) in Emitted(src, maxLines, stopAt, parse) <==>
      && 1 <= n <= |src.lines| && !Halts(n, maxLines, stopAt)
      && Strip(src.lines[n - 1]) != [] && n % 100 == 0 && total == -1
  {
    if n == 0 {
      FileErrorAt(src, maxLines, stopAt, parse, Progress(n, total));
    } else {
      LineSignalAt(src, maxLines, stopAt, parse, Progress(n, total), n);
      if n <= |src.lines| {
        StepProgress(n, Strip(src.lines[n - 1]), parse, total);
      }
    }
  }

  /** `line_loaded(n, value, raw)` is emitted exactly for the lines the loop
      reaches that are not blank and parse, with the stripped line as `raw`. */
  lemma LoadedSignals(src: Source, maxLines: Option<int>, stopAt: Option<nat>,
                      parse: string -> Result<JsonValue, string>, n: nat, v: JsonValue, raw: string)
    ensures LineLoaded(n, v, raw) in Emitted(src, maxLines, stopAt, parse) <==>
      && 1 <= n <= |src.lines| && !Halts(n, maxLines, stopAt)
      && raw == Strip(src.lines[n - 1]) && raw != [] && parse(raw) == Ok(v)
  {
    if n == 0 {
      FileErrorAt(src, maxLines, stopAt, parse, LineLoaded(n, v, raw));
    } else {
      LineSignalAt(src, maxLines, stopAt, parse, LineLoaded(n, v, raw), n);
      if n <= |src.lines| {
        StepLoaded(n, Strip(src.lines[n - 1]), parse, v, raw);
      }
    }
  }

  /** `error_line(n, raw, msg)` is emitted exactly for the lines the loop
      reaches that are not blank and do not parse, and once with ordinal 0
      for a file error met after the last line. */
  lemma ErrorSignals(src: Source, maxLines: Option<int>, stopAt: Option<nat>,
                     parse: string -> Result<JsonValue, string>, n: nat, raw: string, msg: string)
    ensures ErrorLine(n, raw, msg) in Emitted(src, maxLines, stopAt, parse) <==>
      || (&& n == 0 && src.failure.Some? && raw == "" && msg == "File error: " + src.failure.value
          && (|src.lines| == 0 || !Halts(|src.lines|, maxLines, stopAt)))
      || (&& 1 <= n <= |src.lines| && !Halts(n, maxLines, stopAt)
          && raw == Strip(src.lines[n - 1]) && raw != [] && parse(raw) == Err(msg))
  {
    if n == 0 {
      FileErrorAt(src, maxLines, stopAt, parse, ErrorLine(n, raw, msg));
    } else {
      LineSignalAt(src, maxLines, stopAt, parse, ErrorLine(n, raw, msg), n);
      if n <= |src.lines| {
        StepError(n, Strip(src.lines[n - 1]), parse, raw, msg);
      }
    }
  }

  /** No line beyond a positive `max_lines`, and no line from the one before
      which the stop flag was seen set, is processed: neither a signal nor
      `total_lines` refers to one. */
  lemma LimitsRespected(src: Source, maxLines: Option<int>, stopAt: Option<nat>,
                        parse: string -> Result<JsonValue, string>)
    ensures forall e :: e in Emitted(src, maxLines, stopAt, parse) && Ordinal(e) > 0 ==>
      && (maxLines.Some? && maxLines.value > 0 ==> Ordinal(e) <= maxLines.value)
      && (stopAt.Some? ==> Ordinal(e) < stopAt.value)
    ensures var total := Ingest(src, maxLines, stopAt, parse).stats.totalLines;
      && (maxLines.Some? && maxLines.value > 0 ==> total <= maxLines.value)
      && (stopAt.Some? ==> total == 0 || total < stopAt.value)
  {
    forall e | e in Emitted(src, maxLines, stopAt, parse) && Ordinal(e) > 0
      ensures (maxLines.Some? && maxLines.value > 0 ==> Ordinal(e) <= maxLines.value)
      ensures (stopAt.Some? ==> Ordinal(e) < stopAt.value)
    {
      LineSignalAt(src, maxLines, stopAt, parse, e, Ordinal(e));
    }
    var k := Reach(|src.lines|, maxLines, stopAt);
    LoopCounts(Stripped(src.lines), parse, k);
    NonBlankUpToLast(Stripped(src.lines), k);
    var total := LastNonBlank(Stripped(src.lines), k);
    ReachIsFirstHalt(|src.lines|, maxLines, stopAt, total);
  }

  /** The signals of a run come in line order, and the file error, when
      there is one, is the last of them. */
  lemma IngestInOrder(src: Source, maxLines: Option<int>, stopAt: Option<nat>,
                      parse: string -> Result<JsonValue, string>)
    ensures var evs := Emitted(src, maxLines, stopAt, parse);
      && (forall i, j :: 0 <= i < j < |evs| && Ordinal(evs[j]) > 0 ==> Before(evs[i], evs[j]))
      && (forall i :: 0 <= i < |evs| - 1 ==> Ordinal(evs[i]) > 0)
  {
    var k := Reach(|src.lines|, maxLines, stopAt);
    var signals := SignalsAfter(Stripped(src.lines), parse, k);
    SignalsInOrder(Stripped(src.lines), parse, k);
    forall i | 0 <= i < |signals|
      ensures Ordinal(signals[i]) > 0
    {
      SignalsAt(Stripped(src.lines), parse, k, signals[i]);
    }
    var evs := Emitted(src, maxLines, stopAt, parse);
    forall i | 0 <= i < |evs| && (i < |evs| - 1 || Ordinal(evs[i]) > 0)
      ensures i < |signals| && evs[i] == signals[i]
    {
    }
  }

  lemma {:induction false} FoldsOnPrefix(s1: seq<string>, s2: seq<string>,
                                         parse: string -> Result<JsonValue, string>, k: nat)
    requires k <= |s1| && k <= |s2| && s1[..k] == s2[..k]
    ensures StatsAfter(s1, parse, k) == StatsAfter(s2, parse, k)
    ensures SignalsAfter(s1, parse, k) == SignalsAfter(s2, parse, k)
  {
    if k > 0 {
      assert s1[..k - 1] == s1[..k][..k - 1] && s2[..k - 1] == s2[..k][..k - 1];
      assert s1[k - 1] == s1[..k][k - 1] && s2[k - 1] == s2[..k][k - 1];
      FoldsOnPrefix(s1, s2, parse, k - 1);
      LoopNext(s1, parse, k - 1);
      LoopNext(s2, parse, k - 1);
    }
  }

  /** A run over the first `m` lines with no limit, no stop and no read
      error is the loop over those lines of the whole file. */
  lemma TruncatedRun(lines: seq<string>, parse: string -> Result<JsonValue, string>, m: nat)
    requires m <= |lines|
    ensures Ingest(Source(lines[..m], None), None, None, parse)
         == Outcome(StatsAfter(Stripped(lines), parse, m), SignalsAfter(Stripped(lines), parse, m))
  {
    var s1 := Stripped(lines);
    var s2 := Stripped(lines[..m]);
    assert s1[..m] == s2;
    FoldsOnPrefix(s1, s2, parse, m);
    var trunc := Source(lines[..m], None);
    assert Stripped(trunc.lines) == s2;
    assert Reach(|trunc.lines|, None, None) == m;
  }

  /** Halting at line `k + 1`, by the stop flag or by `max_lines`, still
      hands to `finished` the statistics gathered over the first `k` lines,
      emits exactly their signals, and reports no file error; by
      `TruncatedRun`, this is what a run over those lines alone gives. */
  lemma HaltKeepsPrefix(src: Source, maxLines: Option<int>, stopAt: Option<nat>,
                        parse: string -> Result<JsonValue, string>, k: nat)
    requires k < |src.lines| && Halts(k + 1, maxLines, stopAt)
    requires k == 0 || !Halts(k, maxLines, stopAt)
    ensures Ingest(src, maxLines, stopAt, parse)
         == Outcome(StatsAfter(Stripped(src.lines), parse, k), SignalsAfter(Stripped(src.lines), parse, k))
  {
    ReachStopsAt(|src.lines|, maxLines, stopAt, k + 1);
    HaltedRun(src, maxLines, stopAt, parse, k);
  }

  /** A run whose loop head halts before the last line is the loop over the
      lines it reached, with no file error. */
  lemma HaltedRun(src: Source, maxLines: Option<int>, stopAt: Option<nat>,
                  parse: string -> Result<JsonValue, string>, k: nat)
    requires k < |src.lines| && Reach(|src.lines|, maxLines, stopAt) == k
    ensures Ingest(src, maxLines, stopAt, parse)
         == Outcome(StatsAfter(Stripped(src.lines), parse, k), SignalsAfter(Stripped(src.lines), parse, k))
  {
  }

  /** A file that cannot be opened gives zero statistics and one file error. */
  lemma OpenFailure(message: string, maxLines: Option<int>, stopAt: Option<nat>,
                    parse: string -> Result<JsonValue, string>)
    ensures Ingest(Source([], Some(message)), maxLines, stopAt, parse)
         == Outcome(NoStats, [ErrorLine(0, "", "File error: " + message)])
  {
  }
}
