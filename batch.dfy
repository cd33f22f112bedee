/** The command-line driver of epub2audiobook.py: the `--select_epubs` index list, the
    flags, and the loop over the EPUB files that extracts each selected book, speaks it and
    labels the MP3 files. The per-file work of `extract_and_save_chapters` and
    `text_to_speech` enters as a parameter: what each call raises, and the tags it returns. */
module Batch {
  import opened Wrappers
  import opened Text
  import opened Audiobook

  // ---------------------------------------------------------------------------
  // --select_epubs

  /** `range(f, t + 1)`: the integers from `f` to `t`, ascending; empty when `f > t`. */
  function Range(f: int, t: int): (r: seq<int>)
    ensures |r| == if t < f then 0 else t - f + 1
    ensures forall k :: 0 <= k < |r| ==> r[k] == f + k
    decreases if t < f then 0 else t - f + 1
  {
    if t < f then [] else Range(f, t - 1) + [t]
  }

  /** One comma-separated token: with a `-` in it, the inclusive range between the integers
      before the first `-` and between the first and second `-` (any further piece is
      ignored); otherwise the single integer. `int()` failing is a ValueError. */
  function TokenIndexes(tok: string): Result<seq<int>>
  {
    if '-' in tok then
      SplitHead(tok, '-');
      var fromTo := Split(tok, '-');
      match ParseInt(fromTo[0])
      case Err(e) => Err(e)
      case Ok(f) =>
        match ParseInt(fromTo[1])
        case Err(e) => Err(e)
        case Ok(t) => Ok(Range(f, t))
    else
      match ParseInt(tok)
      case Err(e) => Err(e)
      case Ok(n) => Ok([n])
  }

  /** The indexes of the tokens, token after token, in order and with duplicates. */
  function IndexesOf(tokens: seq<string>): Result<seq<int>>
    decreases |tokens|
  {
    if |tokens| == 0 then Ok([])
    else
      match IndexesOf(tokens[..|tokens| - 1])
      case Err(e) => Err(e)
      case Ok(prev) =>
        match TokenIndexes(tokens[|tokens| - 1])
        case Err(e) => Err(e)
        case Ok(more) => Ok(prev + more)
  }

  /** `epub_indexes`: empty unless `--select_epubs` is given and non-empty. */
  function SelectionOf(select: Option<string>): Result<seq<int>>
  {
    if select.None? || |select.value| == 0 then Ok([]) else IndexesOf(Split(select.value, ','))
  }

  /** `IndexesOf` one token further. */
  lemma IndexesOfSnoc(tokens: seq<string>, tok: string)
    ensures IndexesOf(tokens + [tok]) == Then(IndexesOf(tokens), TokenIndexes(tok))
  {
    assert (tokens + [tok])[..|tokens|] == tokens;
  }

  lemma IndexesOfStep(tokens: seq<string>, k: nat)
    requires k < |tokens|
    ensures IndexesOf(tokens[..k + 1]) == Then(IndexesOf(tokens[..k]), TokenIndexes(tokens[k]))
  {
    assert tokens[..k + 1][..k] == tokens[..k];
  }

  /** The indexes so far followed by those of one more token; the first exception wins. */
  function Then(prev: Result<seq<int>>, more: Result<seq<int>>): Result<seq<int>>
  {
    match prev
    case Err(e) => Err(e)
    case Ok(p) =>
      match more
      case Err(e) => Err(e)
      case Ok(m) => Ok(p + m)
  }

  /** The loops of the source that build `epub_indexes`. */
  method ParseSelectEpubs(select: Option<string>) returns (r: Result<seq<int>>)
    ensures r == SelectionOf(select)
  {
    var indexes: seq<int> := [];
    if select.None? || |select.value| == 0 {
      return Ok(indexes);
    }
    var tokens := Split(select.value, ',');
    var k := 0;
    while k < |tokens|
      invariant 0 <= k <= |tokens|
      invariant IndexesOf(tokens[..k]) == Ok(indexes)
      decreases |tokens| - k
    {
      IndexesOfStep(tokens, k);
      var more := AppendToken(indexes, tokens[k]);
      if more.Err? {
        ErrorStaysIn(tokens, k + 1);
        return more;
      }
      indexes := more.value;
      k := k + 1;
    }
    assert tokens[..k] == tokens;
    r := Ok(indexes);
  }

  /** A ValueError in one token is the result of the whole list. */
  lemma {:induction false} ErrorStaysIn(tokens: seq<string>, j: nat)
    requires j <= |tokens| && IndexesOf(tokens[..j]).Err?
    ensures IndexesOf(tokens) == IndexesOf(tokens[..j])
    decreases |tokens| - j
  {
    if j < |tokens| {
      var init := tokens[..|tokens| - 1];
      assert init[..j] == tokens[..j];
      ErrorStaysIn(init, j);
    } else {
      assert tokens[..j] == tokens;
    }
  }

  /** The body of the outer loop, on one token. */
  method AppendToken(indexes: seq<int>, ind: string) returns (r: Result<seq<int>>)
    ensures r == Then(Ok(indexes), TokenIndexes(ind))
  {
    if '-' in ind {
      SplitHead(ind, '-');
      var fromTo := Split(ind, '-');
      var f := ParseInt(fromTo[0]);
      if f.Err? {
        return Err(f.error);
      }
      var t := ParseInt(fromTo[1]);
      if t.Err? {
        return Err(t.error);
      }
      var all := AppendRange(indexes, f.value, t.value);
      r := Ok(all);
    } else {
      var n := ParseInt(ind);
      if n.Err? {
        return Err(n.error);
      }
      r := Ok(indexes + [n.value]);
    }
  }

  /** `for ii in range(f, t + 1): epub_indexes.append(ii)`. */
  method AppendRange(indexes: seq<int>, f: int, t: int) returns (r: seq<int>)
    ensures r == indexes + Range(f, t)
  {
    r := indexes;
    var ii := f;
    while ii <= t
      invariant f <= ii && (ii <= t + 1 || f > t) && (f > t ==> ii == f)
      invariant r == indexes + Range(f, ii - 1)
      decreases t - ii
    {
      r := r + [ii];
      ii := ii + 1;
    }
    assert Range(f, ii - 1) == Range(f, t);
  }

  /** The indexes `0-3,5,7` select are 0, 1, 2, 3, 5 and 7. */
  lemma SelectionExample()
    ensures SelectionOf(Some("0-3,5,7")) == Ok([0, 1, 2, 3, 5, 7])
  {
    ExampleTokens();
    ExampleTokenValues();
    IndexesOfThree("0-3", "5", "7", [0, 1, 2, 3], [5], [7]);
    ExampleConcat();
  }

  lemma ExampleConcat()
    ensures [0, 1, 2, 3] + [5] + [7] == [0, 1, 2, 3, 5, 7]
  {
  }

  lemma IndexesOfThree(t0: string, t1: string, t2: string, a: seq<int>, b: seq<int>, c: seq<int>)
    requires TokenIndexes(t0) == Ok(a) && TokenIndexes(t1) == Ok(b) && TokenIndexes(t2) == Ok(c)
    ensures IndexesOf([t0, t1, t2]) == Ok(a + b + c)
  {
    IndexesOfSnoc([], t0);
    assert [] + [t0] == [t0] && [] + a == a;
    assert IndexesOf([t0]) == Ok(a);
    IndexesOfSnoc([t0], t1);
    assert [t0] + [t1] == [t0, t1];
    assert IndexesOf([t0, t1]) == Ok(a + b);
    IndexesOfSnoc([t0, t1], t2);
    assert [t0, t1] + [t2] == [t0, t1, t2];
  }

  lemma ExampleTokenValues()
    ensures TokenIndexes("0-3") == Ok([0, 1, 2, 3])
    ensures TokenIndexes("5") == Ok([5]) && TokenIndexes("7") == Ok([7])
  {
    ExampleRange();
    DecimalFive();
    DecimalSeven();
  }

  lemma ExampleRange()
    ensures TokenIndexes("0-3") == Ok([0, 1, 2, 3])
  {
    RangeTokenDecimal(0, 3);
    ZeroDashThree();
    RangeZeroThree();
  }

  lemma ZeroDashThree()
    ensures NatToString(0) + "-" + NatToString(3) == "0-3"
  {
    assert NatToString(0) == "0" && NatToString(3) == "3";
  }

  lemma RangeZeroThree()
    ensures Range(0, 3) == [0, 1, 2, 3]
  {
    var r := Range(0, 3);
    assert r[0] == 0 && r[1] == 1 && r[2] == 2 && r[3] == 3;
  }

  lemma DecimalFive()
    ensures TokenIndexes("5") == Ok([5])
  {
    SingleTokenDecimal(5);
    assert NatToString(5) == "5";
  }

  lemma DecimalSeven()
    ensures TokenIndexes("7") == Ok([7])
  {
    SingleTokenDecimal(7);
    assert NatToString(7) == "7";
  }

  lemma ExampleTokens()
    ensures Split("0-3,5,7", ',') == ["0-3", "5", "7"]
  {
    SplitJoin(["0-3", "5", "7"], ',');
    assert Join(["0-3", "5", "7"], ',') == "0-3,5,7";
  }

  /** A token that starts with `-` reads `int("")` for its lower bound: a ValueError, not a
      negative index. */
  lemma NegativeTokenFails(n: nat)
    ensures TokenIndexes("-" + NatToString(n)) == Err(ValueError)
  {
    var tok := "-" + NatToString(n);
    assert tok[..0] == "";
    FirstIndexAt(tok, '-', 0);
    assert Split(tok, '-')[0] == "";
    assert Strip("") == "";
  }

  /** `f-t` with `f > t` selects nothing, and raises nothing. */
  lemma ReversedRangeEmpty(f: nat, t: nat)
    requires f > t
    ensures TokenIndexes(NatToString(f) + "-" + NatToString(t)) == Ok([])
  {
    RangeTokenDecimal(f, t);
  }

  /** `f-t` written in decimal reads back as the range from `f` to `t`. */
  lemma RangeTokenDecimal(f: nat, t: nat)
    ensures TokenIndexes(NatToString(f) + "-" + NatToString(t)) == Ok(Range(f, t))
  {
    var a := NatToString(f);
    var b := NatToString(t);
    DecimalHasNo(f, '-');
    DecimalHasNo(t, '-');
    SplitTwo(a, b, '-');
    assert a + "-" + b == a + ['-'] + b;
    assert (a + ['-'] + b)[|a|] == '-';
    ParseIntOfNat(f);
    ParseIntOfNat(t);
  }

  /** A single index written in decimal reads back as itself. */
  lemma SingleTokenDecimal(n: nat)
    ensures TokenIndexes(NatToString(n)) == Ok([n])
  {
    DecimalHasNo(n, '-');
    ParseIntOfNat(n);
  }

  lemma DecimalHasNo(n: nat, c: char)
    requires !IsDigit(c)
    ensures c !in NatToString(n)
  {
  }

  /** The decimal renderings of a list of indexes. */
  function Decimals(ns: seq<nat>): (r: seq<string>)
    ensures |r| == |ns| && forall k :: 0 <= k < |ns| ==> r[k] == NatToString(ns[k])
  {
    seq(|ns|, k requires 0 <= k < |ns| => NatToString(ns[k]))
  }

  /** A non-empty list of indexes, written comma-separated, is selected exactly, in order and
      with its duplicates. */
  lemma SelectionRoundTrip(ns: seq<nat>)
    requires |ns| > 0
    ensures SelectionOf(Some(Join(Decimals(ns), ','))) == Ok(ns)
  {
    var tokens := Decimals(ns);
    forall k | 0 <= k < |tokens| ensures ',' !in tokens[k] {
      DecimalHasNo(ns[k], ',');
    }
    SplitJoin(tokens, ',');
    IndexesOfDecimals(ns);
    assert |Join(tokens, ',')| > 0 by {
      JoinNonEmpty(tokens, ',');
    }
  }

  lemma {:induction false} IndexesOfDecimals(ns: seq<nat>)
    ensures IndexesOf(Decimals(ns)) == Ok(ns)
    decreases |ns|
  {
    if |ns| > 0 {
      var init := ns[..|ns| - 1];
      var last := ns[|ns| - 1];
      var d := Decimals(init);
      assert IndexesOf(Decimals(ns)) == IndexesOf(d + [NatToString(last)]) by {
        DecimalsSnoc(ns);
      }
      assert IndexesOf(d + [NatToString(last)]) == Ok(init + [last]) by {
        IndexesOfDecimals(init);
        IndexesOfSnoc(d, NatToString(last));
        SingleTokenDecimal(last);
      }
      assert ns == init + [last];
    }
  }

  lemma DecimalsSnoc(ns: seq<nat>)
    requires |ns| > 0
    ensures Decimals(ns) == Decimals(ns[..|ns| - 1]) + [NatToString(ns[|ns| - 1])]
  {
  }

  lemma JoinNonEmpty(parts: seq<string>, c: char)
    requires |parts| > 0 && |parts[0]| > 0
    ensures |Join(parts, c)| > 0
  {
  }

  // ---------------------------------------------------------------------------
  // Flags

  /** `tts == True`: the default is the boolean True, but a value given on the command line
      is a string, and no string equals True. So speech is on exactly when `--tts` is
      absent. */
  function SpeechOn(ttsArg: Option<string>): (on: bool)
  {
    ttsArg.None?
  }

  /** `if preview_epubs_only:`: a given, non-empty string is truthy whatever it says. */
  function PreviewOn(previewArg: Option<string>): (on: bool)
  {
    previewArg.Some? && |previewArg.value| > 0
  }

  /** `--tts True` turns speech off and `--preview_epubs_only False` turns preview on. */
  lemma FlagStrings()
    ensures !SpeechOn(Some("True")) && SpeechOn(None)
    ensures PreviewOn(Some("False")) && !PreviewOn(None) && !PreviewOn(Some(""))
  {
  }

  // ---------------------------------------------------------------------------
  // The loop over the EPUB files

  /** The settings the loop reads: preview, speech, the selected indexes and the series
      name. */
  datatype Config = Config(preview: bool, tts: bool, selection: seq<int>, series: Option<string>)

  /** The outcome of the work on one file: the exception `extract_and_save_chapters` raises,
      if any, and what `text_to_speech` returns or raises. */
  datatype Work = Work(extractError: Option<Error>, speech: Result<seq<Tag>>)

  /** The ID3 frames written to one MP3 file: TIT2, TPE1, TALB (only with a series name) and
      TRCK. */
  datatype Id3 = Id3(audioFile: string, title: string, artist: string, album: Option<string>, track: string)

  /** What the loop did: the files it listed in preview, the indexes it extracted, the
      indexes it spoke, and the frames it wrote. */
  datatype Trace = Trace(listed: seq<(int, string)>, converted: seq<int>, voiced: seq<int>, frames: seq<Id3>)

  const NoTrace := Trace([], [], [], [])

  /** A Python variable holding either an int or a str. */
  datatype PyValue = PyInt(i: int) | PyStr(s: string)

  /** The loop state as written: `idx` and whether the event loop has been closed. */
  datatype BatchState = BatchState(idx: PyValue, loopClosed: bool, trace: Trace)

  /** The state reached, and the exception that ended the program, if any. */
  datatype Run = Run(state: BatchState, error: Option<Error>)

  /** A file is processed when the index list is empty or holds its index. */
  predicate Selected(selection: seq<int>, n: int) {
    |selection| == 0 || n in selection
  }

  /** `if series_name:`. */
  function Album(series: Option<string>): Option<string> {
    if series.Some? && |series.value| > 0 then series else None
  }

  function FrameOf(tag: Tag, series: Option<string>): Id3 {
    Id3(tag.audioFile, tag.bookTitle, tag.creator, Album(series), tag.track)
  }

  function Frames(tags: seq<Tag>, series: Option<string>): seq<Id3>
  {
    seq(|tags|, k requires 0 <= k < |tags| => FrameOf(tags[k], series))
  }

  /** One pass of the loop body as written. `idx += 1` raises TypeError once `idx` holds a
      string. After a spoken file, `idx` is the track string of its last tag (the tuple
      unpacking rebinds it) and the event loop is closed, so the next file that reaches
      `run_until_complete` raises RuntimeError. */
  function FileStep(cfg: Config, work: string -> Work, st: BatchState, file: string): Run
  {
    match st.idx
    case PyStr(_) => Run(st, Some(TypeError))
    case PyInt(i) =>
      var n := i + 1;
      var st1 := st.(idx := PyInt(n));
      if cfg.preview then Run(st1.(trace := st1.trace.(listed := st1.trace.listed + [(n, file)])), None)
      else if !Selected(cfg.selection, n) then Run(st1, None)
      else if work(file).extractError.Some? then Run(st1, work(file).extractError)
      else
        var st2 := st1.(trace := st1.trace.(converted := st1.trace.converted + [n]));
        if !cfg.tts then Run(st2, None)
        else if st2.loopClosed then Run(st2, Some(RuntimeError))
        else
          match work(file).speech
          case Err(e) => Run(st2.(loopClosed := true), Some(e))
          case Ok(tags) =>
            var idx := if |tags| == 0 then PyInt(n) else PyStr(tags[|tags| - 1].track);
            var trace := st2.trace.(voiced := st2.trace.voiced + [n], frames := st2.trace.frames + Frames(tags, cfg.series));
            Run(BatchState(idx, true, trace), None)
  }

  const Start := BatchState(PyInt(-1), false, NoTrace)

  /** The loop over `files` as written: it stops at the first exception. */
  function RunBatch(cfg: Config, work: string -> Work, files: seq<string>): Run
    decreases |files|
  {
    if |files| == 0 then Run(Start, None)
    else
      var prev := RunBatch(cfg, work, files[..|files| - 1]);
      if prev.error.Some? then prev else FileStep(cfg, work, prev.state, files[|files| - 1])
  }

  /** The `for epub_file in epub_files` loop of the source. */
  method ProcessEpubs(cfg: Config, work: string -> Work, files: seq<string>) returns (run: Run)
    ensures run == RunBatch(cfg, work, files)
  {
    var idx: PyValue := PyInt(-1);
    var loopClosed := false;
    var trace := NoTrace;
    var i := 0;
    while i < |files|
      invariant 0 <= i <= |files|
      invariant RunBatch(cfg, work, files[..i]) == Run(BatchState(idx, loopClosed, trace), None)
      decreases |files| - i
    {
      var file := files[i];
      assert files[..i + 1][..i] == files[..i];
      var next := ProcessFile(cfg, work, BatchState(idx, loopClosed, trace), file);
      if next.error.Some? {
        ErrorSticks(cfg, work, files, i + 1);
        return next;
      }
      idx, loopClosed, trace := next.state.idx, next.state.loopClosed, next.state.trace;
      i := i + 1;
    }
    assert files[..i] == files;
    run := Run(BatchState(idx, loopClosed, trace), None);
  }

  /** The body of the loop, on one file. */
  method ProcessFile(cfg: Config, work: string -> Work, st: BatchState, file: string) returns (next: Run)
    ensures next == FileStep(cfg, work, st, file)
  {
    if st.idx.PyStr? {
      return Run(st, Some(TypeError));
    }
    var idx := st.idx.i + 1;
    var trace := st.trace;
    if cfg.preview {
      trace := trace.(listed := trace.listed + [(idx, file)]);
      return Run(BatchState(PyInt(idx), st.loopClosed, trace), None);
    }
    if |cfg.selection| != 0 && idx !in cfg.selection {
      return Run(BatchState(PyInt(idx), st.loopClosed, trace), None);
    }
    var w := work(file);
    if w.extractError.Some? {
      return Run(BatchState(PyInt(idx), st.loopClosed, trace), w.extractError);
    }
    trace := trace.(converted := trace.converted + [idx]);
    if !cfg.tts {
      return Run(BatchState(PyInt(idx), st.loopClosed, trace), None);
    }
    if st.loopClosed {
      return Run(BatchState(PyInt(idx), true, trace), Some(RuntimeError));
    }
    if w.speech.Err? {
      return Run(BatchState(PyInt(idx), true, trace), Some(w.speech.error));
    }
    var tags := w.speech.value;
    var frames, last := LabelFiles(tags, cfg.series, PyInt(idx));
    trace := trace.(voiced := trace.voiced + [idx], frames := trace.frames + frames);
    next := Run(BatchState(last, true, trace), None);
  }

  /** `for id3_tag in id3_tags`: one frame set per tag; the unpacking leaves the last tag's
      track in `idx`. */
  method LabelFiles(tags: seq<Tag>, series: Option<string>, idx: PyValue) returns (frames: seq<Id3>, last: PyValue)
    ensures frames == Frames(tags, series)
    ensures last == if |tags| == 0 then idx else PyStr(tags[|tags| - 1].track)
  {
    frames := [];
    last := idx;
    var k := 0;
    while k < |tags|
      invariant 0 <= k <= |tags|
      invariant frames == Frames(tags[..k], series)
      invariant last == if k == 0 then idx else PyStr(tags[k - 1].track)
      decreases |tags| - k
    {
      frames := frames + [FrameOf(tags[k], series)];
      last := PyStr(tags[k].track);
      k := k + 1;
    }
    assert tags[..k] == tags;
  }

  /** Once the program has raised, later files change nothing. */
  lemma {:induction false} ErrorSticks(cfg: Config, work: string -> Work, files: seq<string>, j: nat)
    requires j <= |files| && RunBatch(cfg, work, files[..j]).error.Some?
    ensures RunBatch(cfg, work, files) == RunBatch(cfg, work, files[..j])
    decreases |files| - j
  {
    if j < |files| {
      var init := files[..|files| - 1];
      assert init[..j] == files[..j];
      ErrorSticks(cfg, work, init, j);
    } else {
      assert files[..j] == files;
    }
  }

  /** As written, at most one file is ever spoken: after it the event loop is closed, and
      `idx` may hold a string. */
  lemma {:induction false} AtMostOneVoiced(cfg: Config, work: string -> Work, files: seq<string>)
    ensures var st := RunBatch(cfg, work, files).state;
      |st.trace.voiced| <= 1 && (|st.trace.voiced| > 0 ==> st.loopClosed)
    decreases |files|
  {
    if |files| > 0 {
      AtMostOneVoiced(cfg, work, files[..|files| - 1]);
    }
  }

  /** Two selected files, the first spoken with at least one tag: the loop raises TypeError
      at `idx += 1` on the second, before its index is compared. */
  lemma IdxOverwriteRaises(a: string, b: string, work: string -> Work, tags: seq<Tag>, series: Option<string>)
    requires work(a) == Work(None, Ok(tags)) && |tags| > 0
    ensures RunBatch(Config(false, true, [], series), work, [a, b]).error == Some(TypeError)
    ensures RunBatch(Config(false, true, [], series), work, [a, b]).state.trace.voiced == [0]
  {
    var cfg := Config(false, true, [], series);
    assert [a, b][..1] == [a] && [a][..0] == [];
    var first := FileStep(cfg, work, Start, a);
    assert RunBatch(cfg, work, [a]) == first;
    assert first.error.None? && first.state.idx == PyStr(tags[|tags| - 1].track) && first.state.trace.voiced == [0];
    assert RunBatch(cfg, work, [a, b]) == FileStep(cfg, work, first.state, b);
  }

  /** Two selected files, the first spoken but with no tag (every chapter blank): `idx`
      stays an int, and the second file meets the closed event loop. */
  lemma ClosedLoopRaises(a: string, b: string, work: string -> Work, series: Option<string>)
    requires work(a) == Work(None, Ok([])) && work(b).extractError.None?
    ensures RunBatch(Config(false, true, [], series), work, [a, b]).error == Some(RuntimeError)
    ensures RunBatch(Config(false, true, [], series), work, [a, b]).state.trace.converted == [0, 1]
  {
    var cfg := Config(false, true, [], series);
    assert [a, b][..1] == [a] && [a][..0] == [];
    var first := FileStep(cfg, work, Start, a);
    assert RunBatch(cfg, work, [a]) == first;
    assert first.error.None? && first.state == BatchState(PyInt(0), true, Trace([], [0], [0], []));
    assert RunBatch(cfg, work, [a, b]) == FileStep(cfg, work, first.state, b);
  }

  // ---------------------------------------------------------------------------
  // The loop as intended

  /** The intended loop state: `idx` stays the file index (the tag's track goes to its own
      variable) and each file gets a fresh event loop. */
  datatype FixedState = FixedState(idx: int, trace: Trace)

  datatype FixedRun = FixedRun(state: FixedState, error: Option<Error>)

  function FixedStep(cfg: Config, work: string -> Work, st: FixedState, file: string): FixedRun
  {
    var n := st.idx + 1;
    var st1 := st.(idx := n);
    if cfg.preview then FixedRun(st1.(trace := st1.trace.(listed := st1.trace.listed + [(n, file)])), None)
    else if !Selected(cfg.selection, n) then FixedRun(st1, None)
    else if work(file).extractError.Some? then FixedRun(st1, work(file).extractError)
    else
      var st2 := st1.(trace := st1.trace.(converted := st1.trace.converted + [n]));
      if !cfg.tts then FixedRun(st2, None)
      else
        match work(file).speech
        case Err(e) => FixedRun(st2, Some(e))
        case Ok(tags) =>
          FixedRun(st2.(trace := st2.trace.(voiced := st2.trace.voiced + [n],
                                              frames := st2.trace.frames + Frames(tags, cfg.series))), None)
  }

  function RunFixed(cfg: Config, work: string -> Work, files: seq<string>): FixedRun
    decreases |files|
  {
    if |files| == 0 then FixedRun(FixedState(-1, NoTrace), None)
    else
      var prev := RunFixed(cfg, work, files[..|files| - 1]);
      if prev.error.Some? then prev else FixedStep(cfg, work, prev.state, files[|files| - 1])
  }

  /** The indexes below `n` that the selection admits, ascending. */
  function SelectedBelow(selection: seq<int>, n: nat): (r: seq<int>)
    ensures forall k :: k in r <==> 0 <= k < n && Selected(selection, k)
    ensures forall j, k :: 0 <= j < k < |r| ==> r[j] < r[k]
  {
    if n == 0 then []
    else
      var prev := SelectedBelow(selection, n - 1);
      assert forall j :: 0 <= j < |prev| ==> prev[j] in prev && prev[j] < n - 1;
      prev + (if Selected(selection, n - 1) then [n - 1] else [])
  }

  /** Work that never raises. */
  predicate Succeeds(work: string -> Work, files: seq<string>) {
    forall k :: 0 <= k < |files| ==> work(files[k]).extractError.None? && work(files[k]).speech.Ok?
  }

  /** Intended: when no file's work raises, the files extracted, and with speech on the files
      spoken, are exactly the selected ones, in order: all of them when the list is empty. */
  lemma {:induction false} FixedProcessesSelected(cfg: Config, work: string -> Work, files: seq<string>)
    requires !cfg.preview && Succeeds(work, files)
    ensures RunFixed(cfg, work, files).error.None?
    ensures RunFixed(cfg, work, files).state.idx == |files| - 1
    ensures RunFixed(cfg, work, files).state.trace.converted == SelectedBelow(cfg.selection, |files|)
    ensures RunFixed(cfg, work, files).state.trace.voiced == if cfg.tts then SelectedBelow(cfg.selection, |files|) else []
    ensures RunFixed(cfg, work, files).state.trace.listed == []
    decreases |files|
  {
    if |files| > 0 {
      var init := files[..|files| - 1];
      assert Succeeds(work, init) by {
        forall k | 0 <= k < |init| ensures init[k] == files[k] {
        }
      }
      FixedProcessesSelected(cfg, work, init);
    }
  }

  /** Preview lists every file with its index and processes none. */
  lemma {:induction false} PreviewListsAll(cfg: Config, work: string -> Work, files: seq<string>)
    requires cfg.preview
    ensures RunFixed(cfg, work, files)
         == FixedRun(FixedState(|files| - 1, Trace(seq(|files|, k requires 0 <= k < |files| => (k, files[k])), [], [], [])), None)
    decreases |files|
  {
    if |files| > 0 {
      var init := files[..|files| - 1];
      PreviewListsAll(cfg, work, init);
      var l := seq(|files|, k requires 0 <= k < |files| => (k, files[k]));
      assert l == seq(|init|, k requires 0 <= k < |init| => (k, init[k])) + [(|files| - 1, files[|files| - 1])];
    }
  }

  /** In preview the loop as written does what was intended: `idx` stays an int. */
  lemma {:induction false} PreviewAsIntended(cfg: Config, work: string -> Work, files: seq<string>)
    requires cfg.preview
    ensures var w := RunBatch(cfg, work, files);
            var f := RunFixed(cfg, work, files);
      w.state == BatchState(PyInt(f.state.idx), false, f.state.trace) && w.error == f.error
    decreases |files|
  {
    if |files| > 0 {
      PreviewAsIntended(cfg, work, files[..|files| - 1]);
    }
  }

  /** Without speech the loop as written does what was intended: `idx` never leaves the ints
      and no event loop is involved. */
  lemma {:induction false} WithoutSpeechAsIntended(cfg: Config, work: string -> Work, files: seq<string>)
    requires !cfg.tts
    ensures var w := RunBatch(cfg, work, files);
            var f := RunFixed(cfg, work, files);
      w.state == BatchState(PyInt(f.state.idx), false, f.state.trace) && w.error == f.error
    decreases |files|
  {
    if |files| > 0 {
      WithoutSpeechAsIntended(cfg, work, files[..|files| - 1]);
    }
  }
}
