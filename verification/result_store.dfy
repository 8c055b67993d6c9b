/** The `output/` directory as a map from path to file content: the drivers
    append to it, the statistics programs read from it. */
module ResultStore {
  import opened Wrappers
  import opened Records
  import opened Loops

  type FileSystem = map<string, string>

  /** Create the file when it does not exist (`createNewFile`), then append
      the line (`StandardOpenOption.APPEND`). */
  function AppendLine(fs: FileSystem, path: string, line: string): (r: FileSystem)
    ensures r.Keys == fs.Keys + {path}
    ensures path in fs ==> r[path] == fs[path] + line
    ensures path !in fs ==> r[path] == line
    ensures forall p :: p in fs && p != path ==> r[p] == fs[p]
  {
    fs[path := (if path in fs then fs[path] else []) + line]
  }

  /** One append: the path of a result file and the line it receives. */
  type Write = (string, string)

  /** The appends in order, as the successive runs make them. */
  function AppendAll(fs: FileSystem, ws: seq<Write>): FileSystem
    decreases |ws|
  {
    if |ws| == 0 then fs else AppendAll(AppendLine(fs, ws[0].0, ws[0].1), ws[1..])
  }

  /** The lines appended to `path`, in order. */
  function LinesTo(ws: seq<Write>, path: string): string {
    if |ws| == 0 then [] else (if ws[0].0 == path then ws[0].1 else []) + LinesTo(ws[1..], path)
  }

  /** The records of the file at `path`; `Files.lines` throws when it is absent. */
  function ReadResults(fs: FileSystem, path: string): (r: Result<seq<Record>, JavaError>)
    ensures r.Failure? ==> (r.error == NoSuchFile <==> path !in fs)
    ensures r.Failure? ==> r.error == NoSuchFile || r.error == IndexOutOfBounds
    ensures path !in fs ==> r.Failure?
  {
    if path !in fs then Failure(NoSuchFile) else ReadRecords(fs[path])
  }

  /** One append creates the file if need be and adds the line to its end. */
  lemma AppendLineEffect(fs: FileSystem, p: string, line: string, path: string)
    ensures path in AppendLine(fs, p, line) <==> path in fs || p == path
    ensures (if path in AppendLine(fs, p, line) then AppendLine(fs, p, line)[path] else [])
         == (if path in fs then fs[path] else []) + (if p == path then line else [])
  {
    if p != path {
      assert path in fs ==> fs[path] + [] == fs[path];
    }
  }

  lemma UntouchedCons(ws: seq<Write>, path: string)
    requires |ws| > 0
    ensures Untouched(ws, path) <==> ws[0].0 != path && Untouched(ws[1..], path)
  {
    assert forall i :: 1 <= i < |ws| ==> ws[i] == ws[1..][i - 1];
  }

  /** After the appends a file exists when it existed before or was appended to. */
  lemma {:induction false} AppendAllKeys(fs: FileSystem, ws: seq<Write>, path: string)
    ensures path in AppendAll(fs, ws) <==> path in fs || !Untouched(ws, path)
    decreases |ws|
  {
    if |ws| > 0 {
      AppendLineEffect(fs, ws[0].0, ws[0].1, path);
      AppendAllKeys(AppendLine(fs, ws[0].0, ws[0].1), ws[1..], path);
      UntouchedCons(ws, path);
    }
  }

  /** After the appends a file holds its old content followed by the lines
      appended to it, in order. */
  lemma {:induction false} AppendAllContent(fs: FileSystem, ws: seq<Write>, path: string)
    ensures (if path in AppendAll(fs, ws) then AppendAll(fs, ws)[path] else [])
         == (if path in fs then fs[path] else []) + LinesTo(ws, path)
    decreases |ws|
  {
    if |ws| > 0 {
      var next := AppendLine(fs, ws[0].0, ws[0].1);
      AppendLineEffect(fs, ws[0].0, ws[0].1, path);
      AppendAllContent(next, ws[1..], path);
      var before := if path in fs then fs[path] else [];
      var mine := if ws[0].0 == path then ws[0].1 else [];
      ConcatAssoc(before, mine, LinesTo(ws[1..], path));
    } else {
      assert path in fs ==> fs[path] + [] == fs[path];
    }
  }

  /** Appends to a file, in order, that are exactly its records' lines give
      the records back when the file did not exist before. */
  lemma WriteThenRead(fs: FileSystem, ws: seq<Write>, path: string, rs: seq<Record>)
    requires path !in fs && |rs| > 0
    requires forall i :: 0 <= i < |rs| ==> IsWritable(rs[i])
    requires LinesTo(ws, path) == WriteRecords(rs)
    ensures ReadSeries(AppendAll(fs, ws), path) == Success(rs)
  {
    AppendAllKeys(fs, ws, path);
    AppendAllContent(fs, ws, path);
    assert LinesTo(ws, path) != [];
    assert path in AppendAll(fs, ws) by {
      if Untouched(ws, path) {
        NoLinesTo(ws, path);
      }
    }
    assert [] + WriteRecords(rs) == WriteRecords(rs);
    ReadWrittenRecords(rs);
  }

  /** A file nobody appends to receives no line. */
  lemma {:induction false} NoLinesTo(ws: seq<Write>, path: string)
    requires Untouched(ws, path)
    ensures LinesTo(ws, path) == []
  {
    if |ws| > 0 {
      assert forall i :: 0 <= i < |ws[1..]| ==> ws[1..][i] == ws[i + 1];
      NoLinesTo(ws[1..], path);
    }
  }

  /** No append goes to `path`. */
  predicate Untouched(ws: seq<Write>, path: string) {
    forall i :: 0 <= i < |ws| ==> ws[i].0 != path
  }

  lemma UntouchedAppend(a: seq<Write>, b: seq<Write>, path: string)
    requires Untouched(a, path) && Untouched(b, path)
    ensures Untouched(a + b, path)
  {
    assert forall i :: |a| <= i < |a| + |b| ==> (a + b)[i] == b[i - |a|];
  }

  /** The lines appended by two batches, one after the other. */
  lemma {:induction false} LinesToAppend(a: seq<Write>, b: seq<Write>, path: string)
    ensures LinesTo(a + b, path) == LinesTo(a, path) + LinesTo(b, path)
  {
    if |a| > 0 {
      LinesToAppend(a[1..], b, path);
      assert (a + b)[1..] == a[1..] + b;
      var mine := if a[0].0 == path then a[0].1 else [];
      assert mine + (LinesTo(a[1..], path) + LinesTo(b, path))
          == mine + LinesTo(a[1..], path) + LinesTo(b, path);
    } else {
      assert a + b == b;
    }
  }

  /** The records of one result file as a statistics program analyses
      them: averaging a file that holds no record throws. */
  function ReadSeries(fs: FileSystem, path: string): (r: Result<seq<Record>, JavaError>)
    ensures r.Success? <==> ReadResults(fs, path).Success? && |ReadResults(fs, path).value| > 0
    ensures r.Success? ==> r.value == ReadResults(fs, path).value
    ensures path !in fs ==> r == Failure(NoSuchFile)
  {
    var records :- ReadResults(fs, path);
    if |records| == 0 then Failure(NoSuchElement) else Success(records)
  }

  /** The series of each file in turn, as the statistics programs loop over
      their files: the first file that is missing, holds a bad line or holds
      no record ends the program with its exception. */
  function ReadAll(fs: FileSystem, paths: seq<string>): (r: Result<seq<seq<Record>>, JavaError>)
    ensures r.Success? <==> forall i :: 0 <= i < |paths| ==> ReadSeries(fs, paths[i]).Success?
    ensures r.Success? ==> |r.value| == |paths|
    ensures r.Success? ==> forall i :: 0 <= i < |paths| ==> ReadSeries(fs, paths[i]) == Success(r.value[i])
    ensures |paths| > 0 && ReadSeries(fs, paths[0]).Failure? ==> r == Failure(ReadSeries(fs, paths[0]).error)
  {
    var series := seq(|paths|, i requires 0 <= i < |paths| => ReadSeries(fs, paths[i]));
    assert forall i :: 0 <= i < |paths| ==> series[i] == ReadSeries(fs, paths[i]);
    Collect(series)
  }
}
