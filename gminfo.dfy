/**
 * Gminfo: the bookkeeping of the `gminfo` command
 * (src/gmprocess/bin/gminfo.py): the process-level codes, one table row per
 * trace, the name and format of the errors file, the walk over the files that
 * collects rows, error rows and the sub-folders seen, and the check of the
 * command-line options.
 *
 * Reading a file is done by a reader this model does not see: what it
 * returns for each file (the streams it read, or the text of the exception it
 * raised) is an input. Printing and the writing of tables are left out; what
 * is written where, and in which format, is the result.
 */
module Gminfo {
  import opened Wrappers
  import opened Ordering
  import Text

  /** `REV_PROCESS_LEVELS`: the description of each process level and its code. */
  const RevProcessLevels: map<string, string> := map[
    "raw counts" := "V0",
    "uncorrected physical units" := "V1",
    "corrected physical units" := "V2",
    "derived time series" := "V3"
  ]

  /** The description that a process-level code stands for. */
  function LevelDescription(code: string): Option<string> {
    if code == "V0" then Some("raw counts")
    else if code == "V1" then Some("uncorrected physical units")
    else if code == "V2" then Some("corrected physical units")
    else if code == "V3" then Some("derived time series")
    else None
  }

  /** The four descriptions map one to one onto V0 to V3, and each code
      leads back to its description. */
  lemma ProcessLevelsInverse(level: string)
    ensures level in RevProcessLevels <==>
            level in {"raw counts", "uncorrected physical units", "corrected physical units", "derived time series"}
    ensures level in RevProcessLevels ==> LevelDescription(RevProcessLevels[level]) == Some(level)
    ensures forall code :: LevelDescription(code).Some? ==>
              LevelDescription(code).value in RevProcessLevels &&
              RevProcessLevels[LevelDescription(code).value] == code
  {
  }

  /** What `get_dataframe` loaded from a trace's stats. Times are seconds. */
  datatype TraceStats = TraceStats(
    sourceFormat: string,
    processLevel: string,
    startTime: real,
    endTime: real,
    network: string,
    station: string,
    channel: string,
    samplingRate: real,
    latitude: real,
    longitude: real)

  /** One row of the concise table, column for column as in `COLUMNS`. */
  datatype Row = Row(
    filename: string,
    format: string,
    processLevel: string,
    startTime: real,
    endTime: real,
    duration: real,
    network: string,
    station: string,
    channel: string,
    samplingRate: real,
    latitude: real,
    longitude: real)

  /** The row of one trace whose process level is known. */
  function RowOf(filename: string, t: TraceStats): Row
    requires t.processLevel in RevProcessLevels
  {
    Row(filename, t.sourceFormat, RevProcessLevels[t.processLevel], t.startTime, t.endTime,
        t.endTime - t.startTime, t.network, t.station, t.channel, t.samplingRate, t.latitude, t.longitude)
  }

  /** The text of the KeyError raised for a missing key. */
  function KeyErrorText(key: string): string {
    "'" + key + "'"
  }

  /** `get_dataframe(filename, stream)`: one row per trace, in stream order,
      or the KeyError of the first trace whose process level is unknown. */
  function Dataframe(filename: string, stream: seq<TraceStats>): Result<seq<Row>> {
    if stream == [] then Ok([])
    else match Dataframe(filename, stream[..|stream| - 1])
      case Err(e) => Err(e)
      case Ok(rows) =>
        var t := stream[|stream| - 1];
        if t.processLevel in RevProcessLevels then Ok(rows + [RowOf(filename, t)])
        else Err(KeyErrorText(t.processLevel))
  }

  /** Every process level is known: the table has one row per trace, each
      built from its own trace. */
  lemma {:induction false} DataframeRows(filename: string, stream: seq<TraceStats>)
    requires forall i :: 0 <= i < |stream| ==> stream[i].processLevel in RevProcessLevels
    ensures Dataframe(filename, stream).Ok?
    ensures |Dataframe(filename, stream).value| == |stream|
    ensures forall i :: 0 <= i < |stream| ==>
      var row, t := Dataframe(filename, stream).value[i], stream[i];
      row.filename == filename && row.format == t.sourceFormat &&
      row.processLevel == RevProcessLevels[t.processLevel] &&
      row.startTime == t.startTime && row.endTime == t.endTime &&
      row.duration == t.endTime - t.startTime &&
      row.network == t.network && row.station == t.station && row.channel == t.channel &&
      row.samplingRate == t.samplingRate && row.latitude == t.latitude && row.longitude == t.longitude
  {
    if stream != [] {
      DataframeRows(filename, stream[..|stream| - 1]);
    }
  }

  /** The first trace whose process level is unknown raises, and nothing is
      returned for the stream. */
  lemma {:induction false} DataframeKeyError(filename: string, stream: seq<TraceStats>, i: nat)
    requires i < |stream| && stream[i].processLevel !in RevProcessLevels
    requires forall j :: 0 <= j < i ==> stream[j].processLevel in RevProcessLevels
    ensures Dataframe(filename, stream) == Err(KeyErrorText(stream[i].processLevel))
    decreases |stream|
  {
    var n := |stream| - 1;
    if i == n {
      DataframeRows(filename, stream[..n]);
    } else {
      assert stream[..n][i] == stream[i];
      DataframeKeyError(filename, stream[..n], i);
    }
  }

  /** The loop of `get_dataframe`, one row appended per trace. */
  method GetDataframe(filename: string, stream: seq<TraceStats>) returns (r: Result<seq<Row>>)
    ensures r == Dataframe(filename, stream)
  {
    var rows: seq<Row> := [];
    var i := 0;
    while i < |stream|
      invariant 0 <= i <= |stream|
      invariant Dataframe(filename, stream[..i]) == Ok(rows)
    {
      var trace := stream[i];
      assert stream[..i + 1][..i] == stream[..i];
      if trace.processLevel !in RevProcessLevels {
        DataframeErrorStays(filename, stream, i + 1);
        return Err(KeyErrorText(trace.processLevel));
      }
      var plevel := RevProcessLevels[trace.processLevel];
      var row := Row(filename, trace.sourceFormat, plevel, trace.startTime, trace.endTime,
                     trace.endTime - trace.startTime, trace.network, trace.station, trace.channel,
                     trace.samplingRate, trace.latitude, trace.longitude);
      rows := rows + [row];
      i := i + 1;
    }
    assert stream[..i] == stream;
    return Ok(rows);
  }

  /** Once a prefix of the stream raises, the whole stream raises the same. */
  lemma {:induction false} DataframeErrorStays(filename: string, stream: seq<TraceStats>, k: nat)
    requires k <= |stream| && Dataframe(filename, stream[..k]).Err?
    ensures Dataframe(filename, stream) == Dataframe(filename, stream[..k])
    decreases |stream| - k
  {
    if k < |stream| {
      assert stream[..k + 1][..k] == stream[..k];
      DataframeErrorStays(filename, stream, k + 1);
    } else {
      assert stream[..k] == stream;
    }
  }

  /** The position of the last `c` in `s`, or -1 when there is none
      (`str.rfind`). */
  function LastIndex(s: string, c: char): (r: int)
    ensures -1 <= r < |s|
    ensures r >= 0 ==> s[r] == c
  {
    if s == [] then -1
    else if s[|s| - 1] == c then |s| - 1
    else LastIndex(s[..|s| - 1], c)
  }

  /** No `c` comes after the one found. */
  lemma {:induction false} LastIndexLast(s: string, c: char)
    ensures forall j :: LastIndex(s, c) < j < |s| ==> s[j] != c
  {
    if s != [] && s[|s| - 1] != c {
      var t := s[..|s| - 1];
      LastIndexLast(t, c);
      forall j | LastIndex(s, c) < j < |s| ensures s[j] != c {
        if j < |t| { assert s[j] == t[j]; }
      }
    }
  }

  /** `rfind` is the only position holding `c` with no `c` after it. */
  lemma LastIndexUnique(s: string, c: char, r: int)
    requires -1 <= r < |s| && (r >= 0 ==> s[r] == c)
    requires forall j :: r < j < |s| ==> s[j] != c
    ensures LastIndex(s, c) == r
  {
    LastIndexLast(s, c);
  }

  /** `PurePath.name`: the text after the last slash. */
  function Name(p: string): string {
    p[LastIndex(p, '/') + 1..]
  }

  /** `PurePath.parent`: the current directory when there is no slash, the
      root when the only slash comes first, else the text before the last
      slash. */
  datatype Folder = Cwd | Root | Dir(path: string)

  function Parent(p: string): Folder {
    var i := LastIndex(p, '/');
    if i < 0 then Cwd else if i == 0 then Root else Dir(p[..i])
  }

  /** `str(folder)`. */
  function FolderText(f: Folder): string {
    match f
    case Cwd => "."
    case Root => "/"
    case Dir(d) => d
  }

  /** `str(folder / name)`: joining an empty name changes nothing, and
      joining onto the current directory gives the name alone. */
  function Join(f: Folder, name: string): string {
    if name == [] then FolderText(f)
    else match f
      case Cwd => name
      case Root => "/" + name
      case Dir(d) => d + "/" + name
  }

  /** `PurePath.suffix` of a name: from its last dot, unless that dot is the
      first or the last character. */
  function Suffix(name: string): string {
    var i := LastIndex(name, '.');
    if 0 < i < |name| - 1 then name[i..] else ""
  }

  /** `PurePath.stem` of a name: the name without its suffix. */
  function Stem(name: string): string {
    var i := LastIndex(name, '.');
    if 0 < i < |name| - 1 then name[..i] else name
  }

  /** The errors file of `App.main`: `str(parent / stem) + "_errors" + suffix`. */
  function ErrorFileName(outfile: string): string {
    var fbase := Join(Parent(outfile), Stem(Name(outfile)));
    fbase + "_errors" + Suffix(Name(outfile))
  }

  datatype TableFormat = Excel | Csv

  /** `.xlsx` selects Excel; every other extension selects CSV. */
  function FormatFor(ext: string): TableFormat {
    if ext == ".xlsx" then Excel else Csv
  }

  /** A name is its stem followed by its suffix, and a suffix is a dot and
      at least one character that is not a dot. */
  lemma StemSuffix(name: string)
    ensures Stem(name) + Suffix(name) == name
    ensures Suffix(name) == "" ||
            (|Suffix(name)| >= 2 && Suffix(name)[0] == '.' && '.' !in Suffix(name)[1..] && Stem(name) != "")
  {
    var i := LastIndex(name, '.');
    LastIndexLast(name, '.');
    if 0 < i < |name| - 1 {
      assert name[..i] + name[i..] == name;
      forall k | 0 <= k < |name[i..][1..]| ensures name[i..][1..][k] != '.' {
        assert name[i..][1..][k] == name[i + 1 + k];
      }
    }
  }

  /** The last slash is not moved by appending text without slashes. */
  lemma LastIndexAppend(s: string, t: string, c: char)
    requires c !in t
    ensures LastIndex(s + t, c) == LastIndex(s, c)
  {
    var q := LastIndex(s, c);
    LastIndexLast(s, c);
    forall j | q < j < |s + t| ensures (s + t)[j] != c {
      if j < |s| { assert (s + t)[j] == s[j]; } else { assert (s + t)[j] == t[j - |s|]; }
    }
    if q >= 0 {
      assert (s + t)[q] == c;
    }
    LastIndexUnique(s + t, c, q);
  }

  /** A path is the text up to its last slash followed by its name, and the
      name holds no slash. */
  lemma NameSplit(p: string)
    ensures p == p[..LastIndex(p, '/') + 1] + Name(p)
    ensures '/' !in Name(p)
  {
    var i := LastIndex(p, '/');
    Text.TakeDrop(p, i + 1);
    NameSlashFree(p);
  }

  lemma NameSlashFree(p: string)
    ensures forall k :: 0 <= k < |Name(p)| ==> Name(p)[k] != '/'
  {
    var i := LastIndex(p, '/');
    LastIndexLast(p, '/');
    forall k | 0 <= k < |Name(p)| ensures Name(p)[k] != '/' {
      assert Name(p)[k] == p[i + 1 + k];
    }
  }

  /** Paths with a name: not empty, and no slash at the end. */
  predicate HasName(p: string) {
    p != [] && p[|p| - 1] != '/'
  }

  /** Joining a name onto the parent puts back the text up to the last
      slash. */
  lemma JoinParent(p: string, x: string)
    requires x != []
    ensures Join(Parent(p), x) == p[..LastIndex(p, '/') + 1] + x
  {
    var i := LastIndex(p, '/');
    if i < 0 {
      assert p[..i + 1] == [];
    } else {
      Text.TakeSnoc(p, i);
      if i == 0 {
        assert p[..i] == [];
      }
    }
  }

  /** The errors file is the outfile with "_errors" put before its suffix:
      same directory, same suffix. */
  lemma ErrorFileInsert(p: string)
    requires HasName(p)
    ensures |Suffix(Name(p))| <= |p|
    ensures ErrorFileName(p) == p[..|p| - |Suffix(Name(p))|] + "_errors" + p[|p| - |Suffix(Name(p))|..]
  {
    var i := LastIndex(p, '/');
    var head := p[..i + 1];
    var stem, suf := Stem(Name(p)), Suffix(Name(p));
    assert p == head + (stem + suf) && ErrorFileName(p) == head + (stem + "_errors" + suf) by {
      ErrorFileShape(p, head, stem, suf);
    }
    ThreeParts(head, stem, suf, p, ErrorFileName(p));
  }

  /** Cutting `head + stem + suf` after its middle part. */
  lemma ThreeParts(head: string, stem: string, suf: string, p: string, e: string)
    requires p == head + (stem + suf) && e == head + (stem + "_errors" + suf)
    ensures |suf| <= |p| && e == p[..|p| - |suf|] + "_errors" + p[|p| - |suf|..]
  {
    var n := |p| - |suf|;
    assert p[..n] == head + stem;
    assert p[n..] == suf;
    ErrorFileSplit(head, stem, suf, p[..n] + "_errors" + p[n..]);
  }

  /** The errors file lies in the outfile's folder, and its name is the
      outfile's name with "_errors" put before the suffix. */
  lemma ErrorFilePlace(p: string)
    requires HasName(p)
    ensures Parent(ErrorFileName(p)) == Parent(p)
    ensures Name(ErrorFileName(p)) == Stem(Name(p)) + "_errors" + Suffix(Name(p))
  {
    var i := LastIndex(p, '/');
    var head := p[..i + 1];
    var stem, suf := Stem(Name(p)), Suffix(Name(p));
    ErrorFileShape(p, head, stem, suf);
    ParentHead(p);
    ErrorFileTail(head, stem + "_errors" + suf, i);
  }

  /** The text up to the last slash has the same last slash and parent. */
  lemma ParentHead(p: string)
    ensures var i := LastIndex(p, '/');
      |p[..i + 1]| == i + 1 && LastIndex(p[..i + 1], '/') == i && Parent(p[..i + 1]) == Parent(p)
  {
    var i := LastIndex(p, '/');
    var head := p[..i + 1];
    LastIndexUnique(head, '/', i);
    if i > 0 {
      assert head[..i] == p[..i];
    }
  }

  /** The outfile and its errors file share the text up to the last slash. */
  lemma ErrorFileShape(p: string, head: string, stem: string, suf: string)
    requires HasName(p) && head == p[..LastIndex(p, '/') + 1]
    requires stem == Stem(Name(p)) && suf == Suffix(Name(p))
    ensures p == head + (stem + suf)
    ensures ErrorFileName(p) == head + (stem + "_errors" + suf)
    ensures '/' !in stem + "_errors" + suf
  {
    NameSplit(p);
    StemSuffix(Name(p));
    assert stem != [] by {
      assert Name(p) != [];
    }
    JoinParent(p, stem);
    ErrorFileSplit(head, stem, suf, ErrorFileName(p));
    assert '/' !in stem + suf;
    ErrorsMarkPlain();
  }

  /** The marker holds neither a slash nor a dot. */
  lemma ErrorsMarkPlain()
    ensures '/' !in "_errors" && '.' !in "_errors"
  {
    var m := "_errors";
    forall k | 0 <= k < |m| ensures m[k] != '/' && m[k] != '.' {
    }
  }

  /** Regrouping the errors file name around the last slash. */
  lemma ErrorFileSplit(head: string, stem: string, suf: string, e: string)
    requires e == (head + stem) + "_errors" + suf
    ensures e == head + (stem + "_errors" + suf)
  {
  }

  lemma ErrorFileTail(head: string, tail: string, i: int)
    requires '/' !in tail && |head| == i + 1 && LastIndex(head, '/') == i
    ensures Parent(head + tail) == Parent(head) && Name(head + tail) == tail
  {
    LastIndexAppend(head, tail, '/');
    if i > 0 {
      assert (head + tail)[..i] == head[..i];
    }
  }

  /** The errors file keeps the outfile's suffix, so both get one format. */
  lemma ErrorFileSuffix(p: string)
    requires HasName(p)
    ensures Suffix(Name(p)) != "" ==> Suffix(Name(ErrorFileName(p))) == Suffix(Name(p))
  {
    ErrorFilePlace(p);
    StemSuffix(Name(p));
    TailSuffix(Stem(Name(p)), Suffix(Name(p)));
  }

  /** A stem that gains "_errors" keeps its suffix. */
  lemma TailSuffix(stem: string, suf: string)
    requires suf == "" || (|suf| >= 2 && suf[0] == '.' && '.' !in suf[1..] && stem != "")
    ensures suf != "" ==> Suffix(stem + "_errors" + suf) == suf
  {
    if suf != "" {
      var w := stem + "_errors" + suf;
      var k := |stem| + 7;
      assert w[k] == '.';
      forall j | k < j < |w| ensures w[j] != '.' {
        assert w[j] == suf[1..][j - k - 1];
      }
      LastIndexUnique(w, '.', k);
      assert w[k..] == suf;
    }
  }

  /** The suffix is ".xlsx" exactly when the name ends with ".xlsx" after at
      least one other character. */
  lemma XlsxSuffix(name: string)
    ensures Suffix(name) == ".xlsx" <==> |name| > 5 && name[|name| - 5..] == ".xlsx"
  {
    var i := LastIndex(name, '.');
    if |name| > 5 && name[|name| - 5..] == ".xlsx" {
      var k := |name| - 5;
      var t := name[k..];
      assert name[k] == t[0];
      forall j | k < j < |name| ensures name[j] != '.' {
        assert name[j] == t[j - k];
      }
      LastIndexUnique(name, '.', k);
    }
    if Suffix(name) == ".xlsx" {
      assert |name[i..]| == 5;
    }
  }

  /** What `App.main` saves: the catalog and its errors file, in one format. */
  datatype Saved = Saved(catalog: string, errors: string, format: TableFormat)

  /** What `App.main` does once the directory is there: what it saves, and
      whether it prints the errors table. */
  datatype MainOutcome = MainOutcome(saved: Option<Saved>, printsErrors: bool)

  /** `App.main(dir, concise, outfile, quiet_errors)`; `dirExists` is the
      answer of `Path(dir).is_dir()`. */
  function Main(dir: string, dirExists: bool, concise: bool, outfile: Option<string>, quietErrors: bool): (r: Result<MainOutcome>)
    ensures r.Err? <==> !dirExists
    ensures r.Err? ==> r.error == "Directory '" + dir + "' does not exist."
  {
    if !dirExists then Err("Directory '" + dir + "' does not exist.")
    else
      var saved :=
        if outfile.Some? && concise then
          var p := outfile.value;
          Some(Saved(p, ErrorFileName(p), FormatFor(Suffix(Name(p)))))
        else None;
      Ok(MainOutcome(saved, (outfile == None || outfile == Some("")) && !quietErrors))
  }

  /** Only a concise listing with an outfile is saved; the errors table is
      printed when nothing (or an empty name) was given to save to, unless
      errors are quiet. */
  lemma MainSaves(dir: string, concise: bool, outfile: Option<string>, quietErrors: bool)
    ensures var r := Main(dir, true, concise, outfile, quietErrors);
      r.Ok? &&
      (r.value.saved.Some? <==> outfile.Some? && concise) &&
      (r.value.saved.Some? ==> r.value.saved.value.catalog == outfile.value) &&
      (r.value.printsErrors <==> !quietErrors && (outfile.None? || outfile.value == []))
  {
  }

  /** What is saved for a concise listing with an outfile. */
  lemma MainSaved(dir: string, outfile: string, quietErrors: bool)
    ensures Main(dir, true, true, Some(outfile), quietErrors).value.saved ==
            Some(Saved(outfile, ErrorFileName(outfile), FormatFor(Suffix(Name(outfile)))))
  {
  }

  /** A saved catalog and its errors file sit in the same folder, the errors
      file being the catalog's name with "_errors" put before its suffix. */
  lemma MainErrorFile(dir: string, outfile: string, quietErrors: bool)
    requires HasName(outfile)
    ensures var s := Main(dir, true, true, Some(outfile), quietErrors).value.saved.value;
      var n := |outfile| - |Suffix(Name(outfile))|;
      0 <= n <= |outfile| &&
      s.errors == outfile[..n] + "_errors" + outfile[n..] &&
      Parent(s.errors) == Parent(outfile)
  {
    MainSaved(dir, outfile, quietErrors);
    ErrorFileInsert(outfile);
    ErrorFilePlace(outfile);
  }

  /** A catalog path without a name (empty, or ending in a slash) gets the
      text of its folder followed by "_errors". */
  lemma MainErrorFileNoName(dir: string, outfile: string, quietErrors: bool)
    requires !HasName(outfile)
    ensures Main(dir, true, true, Some(outfile), quietErrors).value.saved.value.errors ==
            FolderText(Parent(outfile)) + "_errors"
  {
    MainSaved(dir, outfile, quietErrors);
    if outfile != [] {
      LastIndexLast(outfile, '/');
      LastIndexUnique(outfile, '/', |outfile| - 1);
      assert Name(outfile) == [];
    }
  }

  /** Both tables are written as Excel exactly when the catalog's name ends
      with ".xlsx" after at least one other character, and as CSV otherwise. */
  lemma MainFormat(dir: string, outfile: string, quietErrors: bool)
    ensures var s := Main(dir, true, true, Some(outfile), quietErrors).value.saved.value;
      s.format == Excel <==> |Name(outfile)| > 5 && Name(outfile)[|Name(outfile)| - 5..] == ".xlsx"
  {
    MainSaved(dir, outfile, quietErrors);
    XlsxSuffix(Name(outfile));
  }

  /** One row of the errors table: the file, and the text of what it raised. */
  datatype ErrorRow = ErrorRow(filename: string, error: string)

  /** What the reader gave for one file: its streams, or the text of the
      exception it raised. */
  type ReadResult = Result<seq<seq<TraceStats>>>

  /** What one file adds: the rows of its streams, and the text of the
      exception that stopped it, if one did. */
  datatype FileOutcome = FileOutcome(rows: seq<Row>, error: Option<string>)

  /** The streams of one file, stream by stream: a stream that raises stops
      the file, and the rows of the streams before it stay. */
  function StreamRows(path: string, streams: seq<seq<TraceStats>>): FileOutcome {
    if streams == [] then FileOutcome([], None)
    else
      var before := StreamRows(path, streams[..|streams| - 1]);
      if before.error.Some? then before
      else match Dataframe(path, streams[|streams| - 1])
        case Ok(rows) => FileOutcome(before.rows + rows, None)
        case Err(e) => FileOutcome(before.rows, Some(e))
  }

  /** One file: the read failing adds no rows. */
  function ReadOutcome(path: string, read: ReadResult): FileOutcome {
    match read
    case Err(e) => FileOutcome([], Some(e))
    case Ok(streams) => StreamRows(path, streams)
  }

  /** The rows and error rows of `render_concise`, before sorting. */
  datatype Collection = Collection(rows: seq<Row>, errors: seq<ErrorRow>)

  function Collected(files: seq<string>, loaded: seq<ReadResult>): Collection
    requires |files| == |loaded|
  {
    if files == [] then Collection([], [])
    else
      var n := |files| - 1;
      var c := Collected(files[..n], loaded[..n]);
      var o := ReadOutcome(files[n], loaded[n]);
      Collection(c.rows + o.rows, c.errors + if o.error.Some? then [ErrorRow(files[n], o.error.value)] else [])
  }

  /** The sub-folders of the files, each once, in the order first seen. */
  function Folders(files: seq<string>): seq<Folder> {
    if files == [] then []
    else
      var seen := Folders(files[..|files| - 1]);
      var f := Parent(files[|files| - 1]);
      if f in seen then seen else seen + [f]
  }

  /** The sort key of the concise table: network, station, channel. */
  function RowKey(r: Row): seq<string> {
    [r.network, r.station, r.channel]
  }

  /** The number of traces in a file's streams. */
  function TraceCount(streams: seq<seq<TraceStats>>): nat {
    if streams == [] then 0 else TraceCount(streams[..|streams| - 1]) + |streams[|streams| - 1]|
  }

  /** No folder is listed twice. */
  lemma {:induction false} FoldersDistinct(files: seq<string>)
    ensures forall i, j :: 0 <= i < j < |Folders(files)| ==> Folders(files)[i] != Folders(files)[j]
  {
    if files != [] {
      FoldersDistinct(files[..|files| - 1]);
    }
  }

  /** A folder is listed exactly when some file lies in it. */
  lemma {:induction false} FoldersSeen(files: seq<string>, f: Folder)
    ensures f in Folders(files) <==> exists i :: 0 <= i < |files| && Parent(files[i]) == f
  {
    if files != [] {
      var init := files[..|files| - 1];
      FoldersSeen(init, f);
      if exists i :: 0 <= i < |init| && Parent(init[i]) == f {
        var i :| 0 <= i < |init| && Parent(init[i]) == f;
        assert files[i] == init[i];
      }
      if exists i :: 0 <= i < |files| && Parent(files[i]) == f {
        var i :| 0 <= i < |files| && Parent(files[i]) == f;
        if i < |init| { assert init[i] == files[i]; }
      }
    }
  }

  /** Folders keep the order they were first seen in: more files only add
      folders at the end. */
  lemma {:induction false} FoldersGrow(files: seq<string>, k: nat)
    requires k <= |files|
    ensures Folders(files[..k]) <= Folders(files)
    decreases |files| - k
  {
    if k < |files| {
      assert files[..k + 1][..k] == files[..k];
      FoldersGrow(files, k + 1);
    } else {
      assert files[..k] == files;
    }
  }

  /** A file whose streams all have known process levels adds one row per
      trace and no error. */
  lemma {:induction false} StreamRowsClean(path: string, streams: seq<seq<TraceStats>>)
    requires forall k, i :: 0 <= k < |streams| && 0 <= i < |streams[k]| ==> streams[k][i].processLevel in RevProcessLevels
    ensures StreamRows(path, streams).error == None
    ensures |StreamRows(path, streams).rows| == TraceCount(streams)
  {
    if streams != [] {
      var n := |streams| - 1;
      StreamRowsClean(path, streams[..n]);
      DataframeRows(path, streams[n]);
    }
  }

  /** The first stream that raises stops the file: the rows of the streams
      before it are kept, and its error is the file's. */
  lemma {:induction false} StreamRowsStops(path: string, streams: seq<seq<TraceStats>>, k: nat)
    requires k < |streams| && StreamRows(path, streams[..k]).error == None
    requires Dataframe(path, streams[k]).Err?
    ensures StreamRows(path, streams) ==
            FileOutcome(StreamRows(path, streams[..k]).rows, Some(Dataframe(path, streams[k]).error))
    decreases |streams| - k
  {
    assert streams[..k + 1][..k] == streams[..k];
    StreamRowsErrorStays(path, streams, k + 1);
  }

  /** Once a prefix of the streams stopped the file, later streams change
      nothing. */
  lemma {:induction false} StreamRowsErrorStays(path: string, streams: seq<seq<TraceStats>>, k: nat)
    requires k <= |streams| && StreamRows(path, streams[..k]).error.Some?
    ensures StreamRows(path, streams) == StreamRows(path, streams[..k])
    decreases |streams| - k
  {
    if k < |streams| {
      assert streams[..k + 1][..k] == streams[..k];
      StreamRowsErrorStays(path, streams, k + 1);
    } else {
      assert streams[..k] == streams;
    }
  }

  /** Every file that raised has one error row, naming it, and every error
      row comes from a file that raised. */
  lemma {:induction false} CollectedErrors(files: seq<string>, loaded: seq<ReadResult>, e: ErrorRow)
    requires |files| == |loaded|
    ensures e in Collected(files, loaded).errors <==>
      exists i :: 0 <= i < |files| && e.filename == files[i] &&
        ReadOutcome(files[i], loaded[i]).error == Some(e.error)
  {
    if files != [] {
      var n := |files| - 1;
      var fs, rs := files[..n], loaded[..n];
      CollectedErrors(fs, rs, e);
      ErrorsSnoc(Collected(fs, rs).errors, files[n], ReadOutcome(files[n], loaded[n]).error, e);
      if exists i :: 0 <= i < n && e.filename == fs[i] && ReadOutcome(fs[i], rs[i]).error == Some(e.error) {
        var i :| 0 <= i < n && e.filename == fs[i] && ReadOutcome(fs[i], rs[i]).error == Some(e.error);
        assert files[i] == fs[i] && loaded[i] == rs[i];
      }
      if exists i :: 0 <= i < |files| && e.filename == files[i] && ReadOutcome(files[i], loaded[i]).error == Some(e.error) {
        var i :| 0 <= i < |files| && e.filename == files[i] && ReadOutcome(files[i], loaded[i]).error == Some(e.error);
        if i < n { assert files[i] == fs[i] && loaded[i] == rs[i]; }
      }
    }
  }

  /** The error rows after one more file: the earlier ones, and that file's
      own when it raised. */
  lemma ErrorsSnoc(before: seq<ErrorRow>, name: string, error: Option<string>, e: ErrorRow)
    ensures e in before + (if error.Some? then [ErrorRow(name, error.value)] else []) <==>
      e in before || (e.filename == name && error == Some(e.error))
  {
    if error.Some? {
      assert e in [ErrorRow(name, error.value)] <==> e == ErrorRow(name, error.value);
    } else {
      assert before + [] == before;
    }
  }

  /** There are never more error rows than files. */
  lemma {:induction false} CollectedErrorCount(files: seq<string>, loaded: seq<ReadResult>)
    requires |files| == |loaded|
    ensures |Collected(files, loaded).errors| <= |files|
  {
    if files != [] {
      CollectedErrorCount(files[..|files| - 1], loaded[..|loaded| - 1]);
    }
  }

  /** The positions of the files whose read or streams raised. */
  ghost function Failed(files: seq<string>, loaded: seq<ReadResult>): set<int>
    requires |files| == |loaded|
  {
    set i | 0 <= i < |files| && ReadOutcome(files[i], loaded[i]).error.Some?
  }

  /** Each file that raised adds exactly one error row, and no other file
      adds one. */
  lemma {:induction false} CollectedErrorsOnePerFile(files: seq<string>, loaded: seq<ReadResult>)
    requires |files| == |loaded|
    ensures |Collected(files, loaded).errors| == |Failed(files, loaded)|
  {
    if files != [] {
      var n := |files| - 1;
      CollectedErrorsOnePerFile(files[..n], loaded[..n]);
      FailedSnoc(files, loaded);
      assert n !in Failed(files[..n], loaded[..n]);
    }
  }

  /** One more file adds its own position when it raised, and nothing else. */
  lemma FailedSnoc(files: seq<string>, loaded: seq<ReadResult>)
    requires |files| == |loaded| && files != []
    ensures Failed(files, loaded) ==
            Failed(files[..|files| - 1], loaded[..|files| - 1]) +
            (if ReadOutcome(files[|files| - 1], loaded[|files| - 1]).error.Some? then {|files| - 1} else {})
  {
    var n := |files| - 1;
    forall i | 0 <= i < n
      ensures ReadOutcome(files[..n][i], loaded[..n][i]) == ReadOutcome(files[i], loaded[i])
    {
      assert files[..n][i] == files[i] && loaded[..n][i] == loaded[i];
    }
  }

  /** `render_concise(files)`: walks the files once, noting each new
      sub-folder, appending the rows of each stream and an error row for each
      file that raised, then sorts the rows by network, station and channel. */
  method RenderConcise(files: seq<string>, loaded: seq<ReadResult>)
    returns (table: seq<Row>, errors: seq<ErrorRow>, folders: seq<Folder>)
    requires |files| == |loaded|
    ensures folders == Folders(files)
    ensures errors == Collected(files, loaded).errors
    ensures table == SortBy(Collected(files, loaded).rows, RowKey)
  {
    var rows: seq<Row> := [];
    errors, folders := [], [];
    var i := 0;
    while i < |files|
      invariant 0 <= i <= |files|
      invariant Collected(files[..i], loaded[..i]) == Collection(rows, errors)
      invariant folders == Folders(files[..i])
    {
      var path := files[i];
      assert files[..i + 1][..i] == files[..i] && loaded[..i + 1][..i] == loaded[..i];
      var fpath := Parent(path);
      if fpath !in folders {
        folders := folders + [fpath];
      }
      var outcome := ReadFile(path, loaded[i]);
      rows := rows + outcome.rows;
      if outcome.error.Some? {
        errors := errors + [ErrorRow(path, outcome.error.value)];
      }
      i := i + 1;
    }
    assert files[..i] == files && loaded[..i] == loaded;
    table := SortBy(rows, RowKey);
  }

  /** The `try` block of `render_concise` for one file: the streams read,
      one data frame each, until one raises. */
  method ReadFile(path: string, read: ReadResult) returns (outcome: FileOutcome)
    ensures outcome == ReadOutcome(path, read)
  {
    if read.Err? {
      return FileOutcome([], Some(read.error));
    }
    var streams := read.value;
    var rows: seq<Row> := [];
    var k := 0;
    while k < |streams|
      invariant 0 <= k <= |streams|
      invariant StreamRows(path, streams[..k]) == FileOutcome(rows, None)
    {
      assert streams[..k + 1][..k] == streams[..k];
      var tdf := GetDataframe(path, streams[k]);
      if tdf.Err? {
        StreamRowsStops(path, streams, k);
        return FileOutcome(rows, Some(tdf.error));
      }
      rows := rows + tdf.value;
      k := k + 1;
    }
    assert streams[..k] == streams;
    return FileOutcome(rows, None);
  }

  /** The concise table is sorted by network, station and channel and holds
      exactly the rows collected. */
  lemma ConciseTable(files: seq<string>, loaded: seq<ReadResult>)
    requires |files| == |loaded|
    ensures SortedBy(SortBy(Collected(files, loaded).rows, RowKey), RowKey)
    ensures multiset(SortBy(Collected(files, loaded).rows, RowKey)) == multiset(Collected(files, loaded).rows)
  {
    SortByCorrect(Collected(files, loaded).rows, RowKey);
  }

  /** What `cli` does with the parsed options: help when there are no
      arguments, a refusal when saving without `-c`, else a run of
      `App.main`. */
  datatype CliOutcome = Help | Rejected | Run(dir: string, concise: bool, outfile: Option<string>, quietErrors: bool)

  /** `cli()`; `argCount` is `len(sys.argv)`, counting the program name. */
  function Cli(argCount: nat, dir: string, concise: bool, save: Option<string>, quietErrors: bool): CliOutcome {
    if argCount == 1 then Help
    else if !concise && save.Some? && save.value != [] then Rejected
    else Run(dir, concise, save, quietErrors)
  }

  /** Every run the options allow that names a file to save to is concise,
      so `App.main` saves both tables; verbose listings are never saved. */
  lemma CliSaves(argCount: nat, dir: string, concise: bool, save: Option<string>, quietErrors: bool)
    requires argCount != 1
    ensures Cli(argCount, dir, concise, save, quietErrors).Run? <==> concise || save.None? || save.value == []
    ensures var c := Cli(argCount, dir, concise, save, quietErrors);
      c.Run? && save.Some? && save.value != [] ==>
        Main(c.dir, true, c.concise, c.outfile, c.quietErrors).value.saved == Some(Saved(save.value, ErrorFileName(save.value), FormatFor(Suffix(Name(save.value)))))
  {
  }
}
