/** `sa.ResultStats`: the statistics program of the annealing driver reads
    back `output/sa/` for every instance of `data/`, in the order of the
    same comparator as `main.ResultStats`. The averaging of the values is
    not modelled; its exception on a file without records is. */
module SaStats {
  import opened Wrappers
  import opened JavaStrings
  import opened Loops
  import opened Records
  import opened ResultStore
  import opened InstanceFiles
  import opened InstanceOrder
  import SaDriver

  /** `"output/sa/" + instanceId.replace(".vrp", ".txt")`. */
  function ReaderPath(instanceId: string): (p: string)
    ensures "output/sa/" <= p && EndsWith(p, ReplaceLiteral(instanceId, ".vrp", ".txt"))
  {
    "output/sa/" + ReplaceLiteral(instanceId, ".vrp", ".txt")
  }

  /** For a plain instance file the reader opens the file the driver
      appended to for the instance's name. */
  lemma ReaderPathOfPlainFile(f: string)
    requires IsPlainInstanceFile(f)
    ensures ReaderPath(f) == SaDriver.OutputPath(InstanceName(f))
  {
    ReplaceOfPlainFile(f);
    InstanceNameOfPlainFile(f);
    var stem := f[..|f| - 4];
    assert "output/sa/" + (stem + ".txt") == "output/sa/" + stem + ".txt";
  }

  /** In `avrp.vrp` the pattern matches twice: the driver's name is empty. */
  lemma DoubleMatchName()
    ensures !IsPlainInstanceFile("avrp.vrp")
    ensures InstanceName("avrp.vrp") == ""
  {
    var f := "avrp.vrp";
    assert MatchAt(f, 0, "vrp");
    assert f[4..] == ".vrp" && MatchAt(".vrp", 0, "vrp");
  }

  /** The literal replacement touches only the extension of `avrp.vrp`. */
  lemma DoubleMatchReaderPath()
    ensures ReplaceLiteral("avrp.vrp", ".vrp", ".txt") == "avrp.txt"
  {
    assert "avrp.vrp" == "avrp" + ".vrp";
    ReplaceLiteralAfterPrefix("avrp", ".vrp", ".txt");
    assert "avrp" + ".txt" == "avrp.txt";
  }

  /** The round trip needs the naming of `IsPlainInstanceFile`: for
      `avrp.vrp` the driver appends to `output/sa/.txt` while the
      statistics program opens `output/sa/avrp.txt`. */
  lemma ReaderPathNeedsPlainFile()
    ensures !IsPlainInstanceFile("avrp.vrp")
    ensures ReaderPath("avrp.vrp") != SaDriver.OutputPath(InstanceName("avrp.vrp"))
  {
    DoubleMatchName();
    DoubleMatchReaderPath();
    assert |ReaderPath("avrp.vrp")| == 18 && |SaDriver.OutputPath("")| == 14;
  }

  /** The paths the statistics program opens for the files it reads. */
  function ReaderPaths(files: seq<string>): seq<string> {
    Map(files, ReaderPath)
  }

  /** The paths the driver appends to in one pass. */
  function WriterPaths(listing: seq<string>): seq<string> {
    Map(InstanceNames(listing), SaDriver.OutputPath)
  }

  /** On a well-formed listing, once it is sorted, the statistics program
      opens exactly the files one pass of the driver appends to, each once. */
  lemma ReaderFilesAreWriterFiles(listing: seq<string>)
    requires WellFormedListing(listing) && SortInstances(listing).Success?
    ensures multiset(ReaderPaths(ResultFiles(SortInstances(listing).value))) == multiset(WriterPaths(listing))
  {
    var sorted := SortInstances(listing).value;
    ResultFilesPermutation(sorted, listing);
    MapPermutation(ResultFiles(sorted), ResultFiles(listing), ReaderPath);
    var files, names := ResultFiles(listing), InstanceNames(listing);
    InstanceNamesMatchResultFiles(listing);
    forall i | 0 <= i < |files|
      ensures ReaderPaths(files)[i] == WriterPaths(listing)[i]
    {
      ReaderPathOfPlainFile(files[i]);
      InstanceNameOfPlainFile(files[i]);
      assert files[i][..|files[i]| - 4] == names[i];
    }
    assert ReaderPaths(files) == WriterPaths(listing);
  }

  /** `main`: sort the listing with the comparator, skip the optimum
      files, and read the series of every other file in order. */
  function Main(fs: FileSystem, listing: seq<string>): (r: Result<seq<seq<Record>>, JavaError>)
    ensures SortInstances(listing).Failure? ==> r == Failure(SortInstances(listing).error)
    ensures r.Success? ==> SortInstances(listing).Success? && |r.value| == |ResultFiles(SortInstances(listing).value)|
  {
    var sorted :- SortInstances(listing);
    ReadAll(fs, ReaderPaths(ResultFiles(sorted)))
  }

  /** The program succeeds when the file of every instance, in sorted
      order, reads as a non-empty series, and then yields those series. */
  lemma MainReads(fs: FileSystem, listing: seq<string>)
    requires SortInstances(listing).Success?
    ensures var paths := ReaderPaths(ResultFiles(SortInstances(listing).value));
            var r := Main(fs, listing);
            && (r.Success? <==> forall i :: 0 <= i < |paths| ==> ReadSeries(fs, paths[i]).Success?)
            && (r.Success? ==> |r.value| == |paths|)
            && (r.Success? ==> forall i :: 0 <= i < |paths| ==> ReadSeries(fs, paths[i]) == Success(r.value[i]))
  {
    MainIsReadAll(fs, listing);
  }

  /** Once the listing sorts, `main` is `ReadAll` over the reader paths. */
  lemma MainIsReadAll(fs: FileSystem, listing: seq<string>)
    requires SortInstances(listing).Success?
    ensures Main(fs, listing) == ReadAll(fs, ReaderPaths(ResultFiles(SortInstances(listing).value)))
  {
  }

  /** Run before the driver, on an empty `output/`, the program throws at
      the first instance it reads, unless sorting the listing threw
      before. */
  lemma MainFailsWithoutOutput(listing: seq<string>)
    requires |ResultFiles(listing)| > 0
    ensures Main(map[], listing) == Failure(if SortInstances(listing).Failure? then SortInstances(listing).error else NoSuchFile)
  {
    if SortInstances(listing).Success? {
      var sorted := SortInstances(listing).value;
      var files := ResultFiles(sorted);
      ResultFilesPermutation(sorted, listing);
      assert |files| == |multiset(files)| == |multiset(ResultFiles(listing))| == |ResultFiles(listing)|;
      var paths := ReaderPaths(files);
      assert ReadSeries(map[], paths[0]) == Failure(NoSuchFile);
    }
  }

  /** The result file of every instance the program reads holds the
      instance's record of every pass of the driver. */
  lemma WrittenFileReadsBack(listing: seq<string>, outcome: (nat, string) -> Record, f: string)
    requires WellFormedListing(listing) && SortInstances(listing).Success?
    requires f in ResultFiles(SortInstances(listing).value)
    requires forall k: nat, n :: IsWritable(outcome(k, n))
    ensures ReadSeries(SaDriver.MainOutput(listing, outcome), ReaderPath(f))
         == Success(SaDriver.Outcomes(SaDriver.REPETITION_COUNT, InstanceName(f), outcome, 0))
  {
    ResultFileOfReordered(listing, SortInstances(listing).value, f);
    ReaderPathOfPlainFile(f);
    InstanceNamesWellFormed(listing);
    SaDriver.MainFileReadsBack(listing, outcome, InstanceName(f));
  }

  /** On the output of the driver, the program reads, for every instance
      in sorted order, the single record of its single run. */
  lemma MainReadsBack(listing: seq<string>, outcome: (nat, string) -> Record)
    requires WellFormedListing(listing) && SortInstances(listing).Success?
    requires forall k: nat, n :: IsWritable(outcome(k, n))
    ensures var files := ResultFiles(SortInstances(listing).value);
            var r := Main(SaDriver.MainOutput(listing, outcome), listing);
            && r.Success? && |r.value| == |files|
            && forall i :: 0 <= i < |files| ==> r.value[i] == [outcome(0, InstanceName(files[i]))]
  {
    var fs := SaDriver.MainOutput(listing, outcome);
    var files := ResultFiles(SortInstances(listing).value);
    var paths := ReaderPaths(files);
    forall i | 0 <= i < |files|
      ensures ReadSeries(fs, paths[i]) == Success([outcome(0, InstanceName(files[i]))])
    {
      assert paths[i] == ReaderPath(files[i]);
      WrittenFileReadsBack(listing, outcome, files[i]);
      var rs := SaDriver.Outcomes(SaDriver.REPETITION_COUNT, InstanceName(files[i]), outcome, 0);
      assert rs == [outcome(0, InstanceName(files[i]))];
    }
    MainReads(fs, listing);
  }
}
