/** The per-filing loop of `main` (src/main.py): clean each filing, ask for its balance sheet,
    flatten the answer, tag the rows with the ticker and year taken from the file name, and
    gather the frames of the filings that got that far. */
module Pipeline {
  import opened Wrappers
  import opened Text
  import opened Records
  import opened Extractor
  import opened Preprocessor

  // ---------------------------------------------------------------------------------
  // File names

  /** `s.rfind(c)`: the index of the last `c`, or -1. */
  function LastIndexOf(s: string, c: char): (i: int)
    ensures -1 <= i < |s|
    ensures i >= 0 ==> s[i] == c
    ensures forall k :: i < k < |s| ==> s[k] != c
    decreases |s|
  {
    if s == [] then -1
    else if s[|s| - 1] == c then |s| - 1
    else LastIndexOf(s[..|s| - 1], c)
  }

  /** `os.path.basename(path)`: everything after the last '/'. */
  function BaseName(path: string): (r: string)
    ensures '/' !in r
  {
    path[LastIndexOf(path, '/') + 1..]
  }

  predicate AllDots(s: string) {
    forall k :: 0 <= k < |s| ==> s[k] == '.'
  }

  /** `os.path.splitext(name)[0]` for a name without '/': the last '.' and what follows it are
      dropped, unless only dots come before that '.' (as in ".bashrc"). */
  function DropExtension(name: string): string {
    var d := LastIndexOf(name, '.');
    if d > 0 && !AllDots(name[..d]) then name[..d] else name
  }

  /** `os.path.splitext(os.path.basename(file_path))[0]` */
  function FileStem(path: string): string {
    DropExtension(BaseName(path))
  }

  /** `file_name.split('-')`: the first part is the ticker, the third the year; a name with
      fewer than three parts gives "" for both. */
  function ParseFileName(name: string): (string, string) {
    var parts := SplitOn(name, '-');
    if |parts| >= 3 then (parts[0], parts[2]) else ("", "")
  }

  // ---------------------------------------------------------------------------------
  // One filing

  /** The query asked of every filing. */
  const Query: string := "Consolidated Balance Sheets"

  /** The value `ticker` holds before the loop. */
  const InitialTicker: string := "AMZN"

  /** `df[key] = value`: the column is set to `value` in every row, added where it is new.
      What each row then holds is stated in `TagRowsLookup`. */
  function SetColumn(frame: seq<Row>, key: string, value: string): (r: seq<Row>)
    ensures |r| == |frame|
  {
    seq(|frame|, i requires 0 <= i < |frame| => Set(frame[i], key, JString(value)))
  }

  /** `df['ticker'] = ticker; df['file_year'] = file_year` */
  function TagRows(frame: seq<Row>, ticker: string, fileYear: string): (r: seq<Row>)
    ensures |r| == |frame|
  {
    SetColumn(SetColumn(frame, "ticker", ticker), "file_year", fileYear)
  }

  /** Everything outside the loop that the loop consults: `disk` gives the text a read of a
      file yields, `parse` is the HTML parser, `generate` the generative model, `loads`
      `json.loads`, and `preamble` the fixed instructions that open the prompt. */
  datatype Env = Env(
    disk: string -> string,
    parse: string -> seq<Node>,
    generate: string -> string,
    loads: string -> Option<Json>,
    preamble: string)

  /** What became of one filing: an empty response skips it (`continue`), a raising flatten
      skips it too (`except`), otherwise its tagged frame is kept and the ticker reassigned. */
  datatype Outcome =
    | NoResponse
    | NotFlattened(error: FlattenError)
    | Accepted(frame: seq<Row>, ticker: string)

  /** What the loop does with a response and its flattening, for the file stem `name`. */
  function Classify(response: string, flattened: Result<seq<Row>, FlattenError>, name: string): Outcome {
    if response == [] then NoResponse
    else
      match flattened
      case Err(e) => NotFlattened(e)
      case Ok(rows) =>
        var (ticker, fileYear) := ParseFileName(name);
        Accepted(TagRows(rows, ticker, fileYear), ticker)
  }

  /** The model's answer for the filing at `path`.  The cleaned text is written to a file and
      read back by `extract_from_file`; the read gives back what was written. */
  function Response(env: Env, path: string): string {
    ExtractFromFile(CleanText(env.disk(path), env.parse), Query, env.preamble, env.generate)
  }

  /** The body of the loop for `path`. */
  function FilingOutcome(env: Env, path: string): Outcome {
    var response := Response(env, path);
    Classify(response, FlattenResponse(response, env.loads), FileStem(path))
  }

  // ---------------------------------------------------------------------------------
  // The loop

  /** The loop's state: `final_dataframes` and `ticker`. */
  datatype Acc = Acc(frames: seq<seq<Row>>, ticker: string)

  function Step(acc: Acc, outcome: Outcome): Acc {
    if outcome.Accepted? then Acc(acc.frames + [outcome.frame], outcome.ticker) else acc
  }

  /** The state after the outcomes `outcomes`, one after another, starting from `acc`. */
  function Fold(acc: Acc, outcomes: seq<Outcome>): Acc
    decreases |outcomes|
  {
    if outcomes == [] then acc
    else
      var n := |outcomes| - 1;
      Step(Fold(acc, outcomes[..n]), outcomes[n])
  }

  /** The outcome of each filing, in processing order. */
  function Outcomes(env: Env, paths: seq<string>): (os: seq<Outcome>)
    ensures |os| == |paths|
    ensures forall i :: 0 <= i < |paths| ==> os[i] == FilingOutcome(env, paths[i])
  {
    Map(OutcomeOf(env), paths)
  }

  /** `FilingOutcome` for a fixed environment. */
  function OutcomeOf(env: Env): string -> Outcome {
    path => FilingOutcome(env, path)
  }

  /** `f` applied to every element, in order. */
  function Map<A, B>(f: A -> B, xs: seq<A>): (ys: seq<B>)
    ensures |ys| == |xs|
    ensures forall i :: 0 <= i < |xs| ==> ys[i] == f(xs[i])
  {
    seq(|xs|, i requires 0 <= i < |xs| => f(xs[i]))
  }

  lemma MapAppend<A, B>(f: A -> B, a: seq<A>, b: seq<A>)
    ensures Map(f, a + b) == Map(f, a) + Map(f, b)
  {
    var whole, left, right := Map(f, a + b), Map(f, a), Map(f, b);
    forall i | 0 <= i < |a + b| ensures whole[i] == (left + right)[i] {
      if i < |a| {
        assert (a + b)[i] == a[i];
      } else {
        assert (a + b)[i] == b[i - |a|];
      }
    }
  }

  /** The loop's state after the filings `paths`. */
  function Run(env: Env, paths: seq<string>): Acc {
    Fold(Acc([], InitialTicker), Outcomes(env, paths))
  }

  /** `pd.concat(frames, ignore_index=True)` */
  function Concat(frames: seq<seq<Row>>): seq<Row>
    decreases |frames|
  {
    if frames == [] then [] else Concat(frames[..|frames| - 1]) + frames[|frames| - 1]
  }

  /** `os.path.join("data", "final", f"{ticker}extracted.csv")` */
  function OutputPath(ticker: string): string {
    "data/final/" + ticker + "extracted.csv"
  }

  lemma RunStep(env: Env, paths: seq<string>, i: nat)
    requires i < |paths|
    ensures Run(env, paths[..i + 1]) == Step(Run(env, paths[..i]), FilingOutcome(env, paths[i]))
  {
    var os := Outcomes(env, paths[..i + 1]);
    assert os[..i] == Outcomes(env, paths[..i]);
  }

  /** The first half of the loop body: a fresh cleaner loads and cleans the filing, and the
      model is asked the query about the cleaned text. */
  method AskFiling(env: Env, filePath: string) returns (jsonResponse: string)
    ensures jsonResponse == Response(env, filePath)
  {
    var cleaner := new DataCleaner(filePath);
    var cleanText := cleaner.GetCleanText(env.disk, env.parse);
    jsonResponse := ExtractFromFile(cleanText, Query, env.preamble, env.generate);
  }

  /** The second half of the loop body: skip the filing on an empty response or a failed
      flatten, otherwise tag its rows with the ticker and year of `fileName`, reassign the
      ticker and append the frame. */
  method Record(jsonResponse: string, df: Result<seq<Row>, FlattenError>, fileName: string,
                finalDataframes: seq<seq<Row>>, ticker: string)
    returns (frames: seq<seq<Row>>, newTicker: string)
    ensures Acc(frames, newTicker) == Step(Acc(finalDataframes, ticker), Classify(jsonResponse, df, fileName))
  {
    frames, newTicker := finalDataframes, ticker;
    if jsonResponse == [] || df.Err? {
      return;
    }
    var parts := SplitOn(fileName, '-');
    var fileYear;
    if |parts| >= 3 {
      newTicker, fileYear := parts[0], parts[2];
    } else {
      newTicker, fileYear := "", "";
    }
    var frame := SetColumn(df.value, "ticker", newTicker);
    frame := SetColumn(frame, "file_year", fileYear);
    frames := frames + [frame];
  }

  /** One pass of the loop body over the filing at `filePath`, from the state `finalDataframes`
      and `ticker`: clean, ask, flatten, tag, append. */
  method ProcessFiling(env: Env, filePath: string, finalDataframes: seq<seq<Row>>, ticker: string)
    returns (frames: seq<seq<Row>>, newTicker: string)
    ensures Acc(frames, newTicker) == Step(Acc(finalDataframes, ticker), FilingOutcome(env, filePath))
  {
    var fileName := FileStem(filePath);
    var jsonResponse := AskFiling(env, filePath);
    var df: Result<seq<Row>, FlattenError> := Err(NoColumns);
    if jsonResponse != [] {
      df := ProcessAndFlatten(jsonResponse, env.loads);
    }
    frames, newTicker := Record(jsonResponse, df, fileName, finalDataframes, ticker);
  }

  /** Lines 45-109 of `main`: every filing in order, then the combined dataset and the path it
      is saved to, or no path when no filing produced a frame. */
  method ProcessFilings(env: Env, filingFiles: seq<string>) returns (dataset: seq<Row>, finalCsvPath: Option<string>)
    ensures dataset == Concat(Run(env, filingFiles).frames)
    ensures finalCsvPath == if Run(env, filingFiles).frames == [] then None
                            else Some(OutputPath(Run(env, filingFiles).ticker))
  {
    var finalDataframes: seq<seq<Row>> := [];
    var ticker := InitialTicker;
    for i := 0 to |filingFiles|
      invariant Acc(finalDataframes, ticker) == Run(env, filingFiles[..i])
    {
      RunStep(env, filingFiles, i);
      finalDataframes, ticker := ProcessFiling(env, filingFiles[i], finalDataframes, ticker);
    }
    assert filingFiles[..|filingFiles|] == filingFiles;
    if finalDataframes != [] {
      dataset := Concat(finalDataframes);
      finalCsvPath := Some(OutputPath(ticker));
    } else {
      dataset := [];
      finalCsvPath := None;
    }
  }

  // ---------------------------------------------------------------------------------
  // Properties of the file-name parsing

  /** The last `c` of `a + [c] + b` is the one between them when `b` has none. */
  lemma {:induction false} LastIndexOfAt(a: string, b: string, c: char)
    requires c !in b
    ensures LastIndexOf(a + [c] + b, c) == |a|
    decreases |b|
  {
    var s := a + [c] + b;
    if b == [] {
      assert s[|s| - 1] == c;
    } else {
      var m := |b| - 1;
      assert s[|s| - 1] == b[m];
      assert s[..|s| - 1] == a + [c] + b[..m];
      LastIndexOfAt(a, b[..m], c);
    }
  }

  /** A path "dir/base.ext" whose extension has no dot and whose base is more than dots
      has the stem `base`. */
  lemma StemOf(dir: string, base: string, ext: string)
    requires '/' !in base && '/' !in ext && '.' !in ext
    requires !AllDots(base)
    ensures FileStem(dir + "/" + base + "." + ext) == base
  {
    var path := dir + "/" + base + "." + ext;
    var tail := base + "." + ext;
    assert '/' !in tail;
    assert path == dir + ['/'] + tail;
    LastIndexOfAt(dir, tail, '/');
    assert BaseName(path) == tail;
    LastIndexOfAt(base, ext, '.');
    assert tail[..|base|] == base;
  }

  /** A name with at least two '-' gives its first part as ticker and its third as year. */
  lemma ParseFileNameTriple(ticker: string, form: string, rest: string)
    requires '-' !in ticker && '-' !in form
    ensures ParseFileName(ticker + "-" + form + "-" + rest) == (ticker, SplitOn(rest, '-')[0])
  {
    var name := ticker + "-" + form + "-" + rest;
    assert name == ticker + ['-'] + (form + ['-'] + rest);
    SplitOnConcat(ticker, form + ['-'] + rest, '-');
    SplitOnConcat(form, rest, '-');
    SplitOnWithout(ticker, '-');
    SplitOnWithout(form, '-');
  }

  /** A name with at most one '-' gives "" for both. */
  lemma ParseFileNameShort(a: string, b: string)
    requires '-' !in a && '-' !in b
    ensures ParseFileName(a) == ("", "")
    ensures ParseFileName(a + "-" + b) == ("", "")
  {
    SplitOnWithout(a, '-');
    SplitOnTwo(a, b, '-');
  }

  /** The file of the usage example: "data/raw/AMZN-10k-08.txt" has the stem "AMZN-10k-08". */
  lemma StemExample()
    ensures FileStem("data/raw/AMZN-10k-08.txt") == "AMZN-10k-08"
  {
    var base := "AMZN-10k-08";
    assert '/' !in base && '.' !in base by {
      forall k | 0 <= k < |base| ensures base[k] != '/' && base[k] != '.' {}
    }
    assert !AllDots(base) by { assert base[0] != '.'; }
    assert "data/raw/AMZN-10k-08.txt" == "data/raw" + "/" + base + "." + "txt";
    StemOf("data/raw", base, "txt");
  }

  /** The stem "AMZN-10k-08" names ticker AMZN and year 08. */
  lemma ParseExample()
    ensures ParseFileName("AMZN-10k-08") == ("AMZN", "08")
  {
    assert "AMZN-10k-08" == "AMZN" + "-" + "10k" + "-" + "08";
    ParseFileNameTriple("AMZN", "10k", "08");
    SplitOnWithout("08", '-');
  }

  /** The usage example end to end: "data/raw/AMZN-10k-08.txt" is filed under AMZN, year 08. */
  lemma AmazonExample()
    ensures ParseFileName(FileStem("data/raw/AMZN-10k-08.txt")) == ("AMZN", "08")
  {
    StemExample();
    ParseExample();
  }

  // ---------------------------------------------------------------------------------
  // Properties of the tagging

  /** A tagged row reads the filing's ticker and year and, under every other key, what the
      flattened row read. */
  lemma TagRowsLookup(frame: seq<Row>, ticker: string, fileYear: string, i: nat, k: string)
    requires i < |frame|
    ensures Lookup(TagRows(frame, ticker, fileYear)[i], k) ==
            if k == "file_year" then Some(JString(fileYear))
            else if k == "ticker" then Some(JString(ticker))
            else Lookup(frame[i], k)
  {
    var once := SetColumn(frame, "ticker", ticker);
    SetLookup(once[i], "file_year", JString(fileYear), k);
    SetLookup(frame[i], "ticker", JString(ticker), k);
  }

  /** The frame of an accepted filing is its flattened response, same rows in the same order,
      each tagged with the ticker and year of the file name, which also becomes the ticker. */
  lemma AcceptedFrame(response: string, flattened: Result<seq<Row>, FlattenError>, name: string)
    requires Classify(response, flattened, name).Accepted?
    ensures var o := Classify(response, flattened, name);
            var (ticker, fileYear) := ParseFileName(name);
            && response != [] && flattened.Ok?
            && o.ticker == ticker
            && |o.frame| == |flattened.value|
            && forall i, k :: 0 <= i < |o.frame| ==>
                 Lookup(o.frame[i], k) ==
                   if k == "file_year" then Some(JString(fileYear))
                   else if k == "ticker" then Some(JString(ticker))
                   else Lookup(flattened.value[i], k)
  {
    var (ticker, fileYear) := ParseFileName(name);
    var rows := flattened.value;
    forall i, k | 0 <= i < |rows|
      ensures Lookup(TagRows(rows, ticker, fileYear)[i], k) ==
                if k == "file_year" then Some(JString(fileYear))
                else if k == "ticker" then Some(JString(ticker))
                else Lookup(rows[i], k)
    {
      TagRowsLookup(rows, ticker, fileYear, i, k);
    }
  }

  /** An empty response or a failed flatten is skipped: the loop state stays as it was. */
  lemma Skipped(response: string, flattened: Result<seq<Row>, FlattenError>, name: string, acc: Acc)
    requires response == [] || flattened.Err?
    ensures Step(acc, Classify(response, flattened, name)) == acc
  {
  }

  // ---------------------------------------------------------------------------------
  // Properties of the loop

  /** The outcome of each filing depends on that filing alone: the outcomes of two lists of
      files are those of the first, then those of the second. */
  lemma OutcomesAppend(env: Env, a: seq<string>, b: seq<string>)
    ensures Outcomes(env, a + b) == Outcomes(env, a) + Outcomes(env, b)
  {
    MapAppend(OutcomeOf(env), a, b);
  }

  /** Running over `a + b` is running over `a`, then over `b` from there. */
  lemma {:induction false} FoldAppend(acc: Acc, a: seq<Outcome>, b: seq<Outcome>)
    ensures Fold(acc, a + b) == Fold(Fold(acc, a), b)
    decreases |b|
  {
    if b == [] {
      assert a + b == a;
    } else {
      var n := |b| - 1;
      assert (a + b)[..|a + b| - 1] == a + b[..n];
      assert (a + b)[|a + b| - 1] == b[n];
      FoldAppend(acc, a, b[..n]);
    }
  }

  /** Processing two lists of files is processing the first, then the second from the state
      the first left. */
  lemma RunAppend(env: Env, a: seq<string>, b: seq<string>)
    ensures Run(env, a + b) == Fold(Run(env, a), Outcomes(env, b))
  {
    OutcomesAppend(env, a, b);
    FoldAppend(Acc([], InitialTicker), Outcomes(env, a), Outcomes(env, b));
  }

  /** The frames of the accepted filings, in processing order: a reference definition that
      walks the outcomes from the front. */
  function AcceptedFrames(outcomes: seq<Outcome>): seq<seq<Row>> {
    if outcomes == [] then []
    else (if outcomes[0].Accepted? then [outcomes[0].frame] else []) + AcceptedFrames(outcomes[1..])
  }

  lemma {:induction false} AcceptedFramesSnoc(outcomes: seq<Outcome>, o: Outcome)
    ensures AcceptedFrames(outcomes + [o]) == AcceptedFrames(outcomes) + (if o.Accepted? then [o.frame] else [])
  {
    if outcomes == [] {
      assert [o][1..] == [];
    } else {
      assert (outcomes + [o])[0] == outcomes[0];
      assert (outcomes + [o])[1..] == outcomes[1..] + [o];
      AcceptedFramesSnoc(outcomes[1..], o);
    }
  }

  /** The loop keeps exactly the frames of the accepted filings, in order: a skipped filing
      contributes nothing, and later filings are still processed. */
  lemma {:induction false} FoldFrames(acc: Acc, outcomes: seq<Outcome>)
    ensures Fold(acc, outcomes).frames == acc.frames + AcceptedFrames(outcomes)
    decreases |outcomes|
  {
    if outcomes == [] {
      assert acc.frames + [] == acc.frames;
    } else {
      var n := |outcomes| - 1;
      FoldFrames(acc, outcomes[..n]);
      AcceptedFramesSnoc(outcomes[..n], outcomes[n]);
      assert outcomes[..n] + [outcomes[n]] == outcomes;
    }
  }

  /** Without an accepted outcome the loop state stays the one the loop started from. */
  lemma {:induction false} FoldNoneAccepted(acc: Acc, outcomes: seq<Outcome>)
    requires forall i :: 0 <= i < |outcomes| ==> !outcomes[i].Accepted?
    ensures Fold(acc, outcomes) == acc
    decreases |outcomes|
  {
    if outcomes != [] {
      var n := |outcomes| - 1;
      assert forall i :: 0 <= i < n ==> outcomes[..n][i] == outcomes[i];
      FoldNoneAccepted(acc, outcomes[..n]);
    }
  }

  /** The ticker after the loop is that of the last accepted outcome. */
  lemma FoldLastTicker(acc: Acc, outcomes: seq<Outcome>, j: nat)
    requires j < |outcomes| && outcomes[j].Accepted?
    requires forall i :: j < i < |outcomes| ==> !outcomes[i].Accepted?
    ensures Fold(acc, outcomes).ticker == outcomes[j].ticker
  {
    var before, after := outcomes[..j + 1], outcomes[j + 1..];
    assert outcomes == before + after;
    FoldAppend(acc, before, after);
    assert before[..j] == outcomes[..j] && before[j] == outcomes[j];
    var mid := Fold(acc, before);
    assert mid == Step(Fold(acc, outcomes[..j]), outcomes[j]);
    assert mid.ticker == outcomes[j].ticker;
    assert forall i :: 0 <= i < |after| ==> after[i] == outcomes[j + 1 + i];
    FoldNoneAccepted(mid, after);
  }

  /** The number of rows of a list of frames. */
  function RowCount(frames: seq<seq<Row>>): nat {
    if frames == [] then 0 else |frames[0]| + RowCount(frames[1..])
  }

  lemma {:induction false} RowCountSnoc(a: seq<seq<Row>>, f: seq<Row>)
    ensures RowCount(a + [f]) == RowCount(a) + |f|
  {
    if a == [] {
      assert [f][1..] == [];
    } else {
      assert (a + [f])[1..] == a[1..] + [f];
      RowCountSnoc(a[1..], f);
    }
  }

  /** Concatenation adds and loses no row: its length is the sum of the frames' lengths. */
  lemma {:induction false} ConcatLength(frames: seq<seq<Row>>)
    ensures |Concat(frames)| == RowCount(frames)
    decreases |frames|
  {
    if frames != [] {
      var n := |frames| - 1;
      ConcatLength(frames[..n]);
      RowCountSnoc(frames[..n], frames[n]);
      assert frames[..n] + [frames[n]] == frames;
    }
  }

  /** Concatenation keeps the frames in order, row by row. */
  lemma {:induction false} ConcatAppend(a: seq<seq<Row>>, b: seq<seq<Row>>)
    ensures Concat(a + b) == Concat(a) + Concat(b)
    decreases |b|
  {
    if b == [] {
      assert a + b == a;
    } else {
      var n := |b| - 1;
      assert (a + b)[..|a + b| - 1] == a + b[..n];
      assert (a + b)[|a + b| - 1] == b[n];
      ConcatAppend(a, b[..n]);
    }
  }

  /** The combined dataset is the accepted frames concatenated in processing order. */
  lemma Dataset(env: Env, paths: seq<string>)
    ensures Run(env, paths).frames == AcceptedFrames(Outcomes(env, paths))
    ensures |Concat(Run(env, paths).frames)| == RowCount(AcceptedFrames(Outcomes(env, paths)))
  {
    FoldFrames(Acc([], InitialTicker), Outcomes(env, paths));
    ConcatLength(Run(env, paths).frames);
  }

  lemma {:induction false} AcceptedFramesAt(outcomes: seq<Outcome>, j: nat)
    requires j < |outcomes| && outcomes[j].Accepted?
    ensures AcceptedFrames(outcomes) != []
  {
    if j > 0 {
      AcceptedFramesAt(outcomes[1..], j - 1);
    }
  }

  /** Without an accepted filing there is no frame, so nothing is saved. */
  lemma NothingSaved(env: Env, paths: seq<string>)
    requires forall i :: 0 <= i < |paths| ==> !FilingOutcome(env, paths[i]).Accepted?
    ensures Run(env, paths).frames == []
    ensures Run(env, paths).ticker == InitialTicker
  {
    FoldNoneAccepted(Acc([], InitialTicker), Outcomes(env, paths));
  }

  /** The output file is named after the ticker parsed from the last accepted filing, "" when
      that name had fewer than three parts. */
  lemma OutputName(env: Env, paths: seq<string>, j: nat)
    requires j < |paths| && FilingOutcome(env, paths[j]).Accepted?
    requires forall i :: j < i < |paths| ==> !FilingOutcome(env, paths[i]).Accepted?
    ensures Run(env, paths).frames != []
    ensures Run(env, paths).ticker == ParseFileName(FileStem(paths[j])).0
  {
    LastAccepted(Acc([], InitialTicker), Outcomes(env, paths), j);
    OutcomeTicker(env, paths[j]);
  }

  /** After a last accepted outcome at `j`, there is a frame and the ticker is that outcome's. */
  lemma LastAccepted(acc: Acc, outcomes: seq<Outcome>, j: nat)
    requires j < |outcomes| && outcomes[j].Accepted?
    requires forall i :: j < i < |outcomes| ==> !outcomes[i].Accepted?
    ensures Fold(acc, outcomes).frames != []
    ensures Fold(acc, outcomes).ticker == outcomes[j].ticker
  {
    FoldLastTicker(acc, outcomes, j);
    FoldFrames(acc, outcomes);
    AcceptedFramesAt(outcomes, j);
  }

  /** An accepted filing reassigns the ticker to the one parsed from its own name. */
  lemma OutcomeTicker(env: Env, path: string)
    ensures FilingOutcome(env, path).Accepted? ==> FilingOutcome(env, path).ticker == ParseFileName(FileStem(path)).0
  {
    var response := Response(env, path);
    var flattened := FlattenResponse(response, env.loads);
    assert FilingOutcome(env, path) == Classify(response, flattened, FileStem(path));
    if Classify(response, flattened, FileStem(path)).Accepted? {
      AcceptedFrame(response, flattened, FileStem(path));
    }
  }
}
