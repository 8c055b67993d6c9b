/** `main.ResultStats`: for each configured setting, the statistics program
    reads back the result files the experiment driver wrote for every
    instance of `data/`. The averaging of the values is not modelled; its
    exception on a file without records is. */
module MainStats {
  import opened Wrappers
  import opened JavaStrings
  import opened JavaIntegers
  import opened Experiment
  import opened Records
  import opened ResultStore
  import opened InstanceFiles
  import opened InstanceOrder
  import opened FilePaths
  import opened Loops
  import MainDriver

  const THREAD_COUNT: int := 1
  const MIN_POPULATION_SIZE: int := 2
  const MAX_POPULATION_SIZE: int := 15
  const ALGORITHM: Algorithm := POP_VND
  const TYPE: SearchType := FIRST
  const SHUFFLE_NEIGHBORHOODS: bool := false

  /** The static fields during one `runInstance` call. For VND the
      population size keeps its initial 0. */
  function Setting(algorithm: Algorithm, populationSize: int): RunConfig {
    RunConfig(algorithm, populationSize, SHUFFLE_NEIGHBORHOODS, TYPE, THREAD_COUNT)
  }

  /** The loop of `main` over the population sizes from `pop` on. */
  function PopulationLoop(pop: int): seq<RunConfig>
    decreases MAX_POPULATION_SIZE - pop
  {
    if pop <= MAX_POPULATION_SIZE then [Setting(POP_VND, pop)] + PopulationLoop(pop + 1) else []
  }

  /** The settings `main` calls `runInstance` with, in order. */
  function Settings(algorithm: Algorithm): seq<RunConfig> {
    if algorithm == VND then [Setting(VND, 0)] else PopulationLoop(MIN_POPULATION_SIZE)
  }

  /** The population loop covers each size from `pop` to the maximum, in
      increasing order. */
  lemma {:induction false} PopulationLoopSpec(pop: int)
    ensures |PopulationLoop(pop)| == if pop <= MAX_POPULATION_SIZE then MAX_POPULATION_SIZE - pop + 1 else 0
    ensures forall i :: 0 <= i < |PopulationLoop(pop)| ==> PopulationLoop(pop)[i] == Setting(POP_VND, pop + i)
    decreases MAX_POPULATION_SIZE - pop
  {
    if pop <= MAX_POPULATION_SIZE {
      var rest := PopulationLoop(pop + 1);
      PopulationLoopSpec(pop + 1);
      assert PopulationLoop(pop) == [Setting(POP_VND, pop)] + rest;
      assert forall i :: 1 <= i < |rest| + 1 ==> PopulationLoop(pop)[i] == rest[i - 1];
    }
  }

  /** For POP_VND, one setting per size from 2 to 15; for VND, a single one. */
  lemma SettingsSpec(algorithm: Algorithm)
    ensures |Settings(algorithm)| == if algorithm == POP_VND then 14 else 1
    ensures algorithm == POP_VND ==>
              forall i :: 0 <= i < |Settings(algorithm)| ==> Settings(algorithm)[i] == Setting(POP_VND, MIN_POPULATION_SIZE + i)
    ensures algorithm == VND ==> Settings(algorithm) == [Setting(VND, 0)]
  {
    PopulationLoopSpec(MIN_POPULATION_SIZE);
  }

  // ---------------------------------------------------------------------
  // The result file of an instance file.

  /** The path `runInstance` opens for an instance file: the directories of
      the setting, then the file name with `.vrp` replaced by `.txt`. */
  function ReaderPath(cfg: RunConfig, instanceId: string): (p: string)
    ensures "output/" <= p && EndsWith(p, ReplaceLiteral(instanceId, ".vrp", ".txt"))
  {
    var path := "output/" + AlgorithmDir(cfg.algorithm) + "/";
    var path := if cfg.algorithm == POP_VND then path + (IntToString(cfg.populationSize) + "/") else path;
    var path := path + ("shuff_" + BoolToString(cfg.shuffle) + "/");
    var path := path + ("type_" + TypeName(cfg.searchType) + "/");
    var path := if cfg.algorithm == POP_VND then path + ("thread_" + IntToString(cfg.threadCount) + "/") else path;
    path + ReplaceLiteral(instanceId, ".vrp", ".txt")
  }

  /** The reader builds the same directories as the driver. */
  lemma ReaderPathIsDirPath(cfg: RunConfig, instanceId: string)
    ensures ReaderPath(cfg, instanceId) == DirPath(MainDriver.OutputDirs(cfg)) + ReplaceLiteral(instanceId, ".vrp", ".txt")
  {
    var file := ReplaceLiteral(instanceId, ".vrp", ".txt");
    var alg := AlgorithmDir(cfg.algorithm);
    var shuff := "shuff_" + BoolToString(cfg.shuffle);
    var typ := "type_" + TypeName(cfg.searchType);
    if cfg.algorithm == POP_VND {
      var pop := IntToString(cfg.populationSize);
      var thread := "thread_" + IntToString(cfg.threadCount);
      assert MainDriver.OutputDirs(cfg) == ["output", alg, pop, shuff, typ, thread];
      MainDriver.SixSegments(alg, pop, shuff, typ, thread, file);
    } else {
      assert MainDriver.OutputDirs(cfg) == ["output", alg, shuff, typ];
      MainDriver.FourSegments(alg, shuff, typ, file);
    }
  }

  /** For a plain instance file the reader opens the file the driver
      appended to for the instance's name under the same setting. */
  lemma ReaderPathOfPlainFile(cfg: RunConfig, f: string)
    requires IsPlainInstanceFile(f)
    ensures ReaderPath(cfg, f) == MainDriver.OutputPath(cfg, InstanceName(f))
  {
    ReaderPathIsDirPath(cfg, f);
    MainDriver.OutputPathIsDirPath(cfg, InstanceName(f));
    ReplaceOfPlainFile(f);
    InstanceNameOfPlainFile(f);
  }

  /** The paths the statistics program opens for the files it reads. */
  function ReaderPaths(cfg: RunConfig, files: seq<string>): seq<string> {
    Map(files, f => ReaderPath(cfg, f))
  }

  /** The paths one `runAllInstances` call appends to. */
  function WriterPaths(cfg: RunConfig, listing: seq<string>): seq<string> {
    Map(InstanceNames(listing), n => MainDriver.OutputPath(cfg, n))
  }

  /** On a well-formed listing, once it is sorted, the statistics program
      opens exactly the files one `runAllInstances` call of the same
      setting appends to, each once. */
  lemma ReaderFilesAreWriterFiles(cfg: RunConfig, listing: seq<string>)
    requires WellFormedListing(listing) && SortInstances(listing).Success?
    ensures multiset(ReaderPaths(cfg, ResultFiles(SortInstances(listing).value))) == multiset(WriterPaths(cfg, listing))
  {
    var sorted := SortInstances(listing).value;
    var reader := f => ReaderPath(cfg, f);
    ResultFilesPermutation(sorted, listing);
    MapPermutation(ResultFiles(sorted), ResultFiles(listing), reader);
    var files, names := ResultFiles(listing), InstanceNames(listing);
    InstanceNamesMatchResultFiles(listing);
    forall i | 0 <= i < |files|
      ensures Map(files, reader)[i] == WriterPaths(cfg, listing)[i]
    {
      ReaderPathOfPlainFile(cfg, files[i]);
      InstanceNameOfPlainFile(files[i]);
      assert files[i][..|files[i]| - 4] == names[i];
    }
    assert Map(files, reader) == WriterPaths(cfg, listing);
  }

  // ---------------------------------------------------------------------
  // Reading the results.

  /** `runInstance`: sort the listing with the comparator, skip the
      optimum files, and read the series of every other file in order. */
  function RunInstance(fs: FileSystem, cfg: RunConfig, listing: seq<string>): Result<seq<seq<Record>>, JavaError> {
    var sorted :- SortInstances(listing);
    ReadAll(fs, ReaderPaths(cfg, ResultFiles(sorted)))
  }

  /** The outcome of `runInstance` for each setting, in order. */
  function RunEach(fs: FileSystem, settings: seq<RunConfig>, listing: seq<string>): seq<Result<seq<seq<Record>>, JavaError>> {
    seq(|settings|, i requires 0 <= i < |settings| => RunInstance(fs, settings[i], listing))
  }

  /** `main`: `runInstance` for each setting in turn, the first exception
      ending the program. */
  function Main(fs: FileSystem, algorithm: Algorithm, listing: seq<string>): (r: Result<seq<seq<seq<Record>>>, JavaError>)
    ensures SortInstances(listing).Failure? ==> r == Failure(SortInstances(listing).error)
    ensures r.Success? ==> |r.value| == |Settings(algorithm)|
  {
    SettingsSpec(algorithm);
    Collect(RunEach(fs, Settings(algorithm), listing))
  }

  /** One setting succeeds when the file of every instance, in sorted
      order, reads as a non-empty series, and then yields those series. */
  lemma RunInstanceReads(fs: FileSystem, c: RunConfig, listing: seq<string>)
    requires SortInstances(listing).Success?
    ensures var paths := ReaderPaths(c, ResultFiles(SortInstances(listing).value));
            var r := RunInstance(fs, c, listing);
            && (r.Success? <==> forall i :: 0 <= i < |paths| ==> ReadSeries(fs, paths[i]).Success?)
            && (r.Success? ==> |r.value| == |paths|)
            && (r.Success? ==> forall i :: 0 <= i < |paths| ==> ReadSeries(fs, paths[i]) == Success(r.value[i]))
  {
    RunInstanceIsReadAll(fs, c, listing);
  }

  /** Once the listing sorts, one setting is `ReadAll` over its reader paths. */
  lemma RunInstanceIsReadAll(fs: FileSystem, c: RunConfig, listing: seq<string>)
    requires SortInstances(listing).Success?
    ensures RunInstance(fs, c, listing) == ReadAll(fs, ReaderPaths(c, ResultFiles(SortInstances(listing).value)))
  {
  }

  /** One setting throws the exception of the first instance's file, in
      sorted order, when that file does not read. */
  lemma RunInstanceFirstFailure(fs: FileSystem, c: RunConfig, listing: seq<string>)
    requires SortInstances(listing).Success?
    requires |ResultFiles(SortInstances(listing).value)| > 0
    requires ReadSeries(fs, ReaderPath(c, ResultFiles(SortInstances(listing).value)[0])).Failure?
    ensures RunInstance(fs, c, listing) == Failure(ReadSeries(fs, ReaderPath(c, ResultFiles(SortInstances(listing).value)[0])).error)
  {
    var files := ResultFiles(SortInstances(listing).value);
    var paths := ReaderPaths(c, files);
    assert paths[0] == ReaderPath(c, files[0]);
    assert RunInstance(fs, c, listing) == ReadAll(fs, paths);
  }

  /** Sorting keeps the number of result files. */
  lemma SortedResultFiles(listing: seq<string>)
    requires SortInstances(listing).Success?
    ensures |ResultFiles(SortInstances(listing).value)| == |ResultFiles(listing)|
  {
    var files := ResultFiles(SortInstances(listing).value);
    ResultFilesPermutation(SortInstances(listing).value, listing);
    assert |files| == |multiset(files)| == |multiset(ResultFiles(listing))| == |ResultFiles(listing)|;
  }

  // ---------------------------------------------------------------------
  // Reading what the experiment driver wrote.

  /** Under a setting no call of the sweep shares the path parameters of,
      the file of every instance the statistics program reads is missing. */
  lemma UnwrittenFileMissing(algorithm: Algorithm, listing: seq<string>, outcome: (nat, string) -> Record, c: RunConfig, f: string)
    requires WellFormedListing(listing) && SortInstances(listing).Success?
    requires f in ResultFiles(SortInstances(listing).value)
    requires forall i :: 0 <= i < |MainDriver.Sweep(algorithm)| ==> !SamePathParameters(MainDriver.Sweep(algorithm)[i], c)
    ensures ReadSeries(MainDriver.MainOutput(algorithm, listing, outcome), ReaderPath(c, f)) == Failure(NoSuchFile)
  {
    ResultFileOfReordered(listing, SortInstances(listing).value, f);
    ReaderPathOfPlainFile(c, f);
    InstanceNamesWellFormed(listing);
    MainDriver.SweepFileMissing(algorithm, InstanceNames(listing), outcome, c, InstanceName(f));
  }

  /** Reading under a POP_VND population size the driver does not run
      throws at the first instance: `Files.lines` finds no file, unless
      sorting the listing threw before. */
  lemma UnwrittenSettingFails(listing: seq<string>, outcome: (nat, string) -> Record, c: RunConfig)
    requires WellFormedListing(listing) && |ResultFiles(listing)| > 0
    requires c.algorithm == POP_VND
    requires !(MainDriver.MIN_POPULATION_SIZE <= c.populationSize <= MainDriver.MAX_POPULATION_SIZE)
    ensures RunInstance(MainDriver.MainOutput(POP_VND, listing, outcome), c, listing)
         == Failure(if SortInstances(listing).Failure? then SortInstances(listing).error else NoSuchFile)
  {
    var fs := MainDriver.MainOutput(POP_VND, listing, outcome);
    if SortInstances(listing).Success? {
      var files := ResultFiles(SortInstances(listing).value);
      SortedResultFiles(listing);
      UnsweptSize(c);
      UnwrittenFileMissing(POP_VND, listing, outcome, c, files[0]);
      RunInstanceFirstFailure(fs, c, listing);
    } else {
      RunInstanceSortFails(fs, c, listing);
    }
  }

  /** A POP_VND population size outside the driver's range matches no
      setting of the driver's sweep. */
  lemma UnsweptSize(c: RunConfig)
    requires c.algorithm == POP_VND
    requires !(MainDriver.MIN_POPULATION_SIZE <= c.populationSize <= MainDriver.MAX_POPULATION_SIZE)
    ensures forall i :: 0 <= i < |MainDriver.Sweep(POP_VND)| ==> !SamePathParameters(MainDriver.Sweep(POP_VND)[i], c)
  {
    MainDriver.SweepPopulationSizes(POP_VND, c);
  }

  /** One setting throws the comparator's exception when sorting throws. */
  lemma RunInstanceSortFails(fs: FileSystem, c: RunConfig, listing: seq<string>)
    requires SortInstances(listing).Failure?
    ensures RunInstance(fs, c, listing) == Failure(SortInstances(listing).error)
  {
  }

  /** The statistics program as configured never completes on the output
      of the driver as configured, provided `data/` holds an instance: the
      driver runs the population sizes 2 and 3, the statistics program
      reads the sizes 2 to 15, so it throws at size 4 at the latest, and
      with `NoSuchFileException` there unless sorting threw first. */
  lemma MainFailsOnDriverOutput(listing: seq<string>, outcome: (nat, string) -> Record)
    requires WellFormedListing(listing) && |ResultFiles(listing)| > 0
    ensures Main(MainDriver.MainOutput(MainDriver.ALGORITHM, listing, outcome), ALGORITHM, listing).Failure?
  {
    var fs := MainDriver.MainOutput(MainDriver.ALGORITHM, listing, outcome);
    SettingsSpec(POP_VND);
    var c := Settings(ALGORITHM)[2];
    UnwrittenSettingFails(listing, outcome, c);
    assert RunEach(fs, Settings(ALGORITHM), listing)[2].Failure?;
  }

  /** When every run produces a printable record, the sizes 2 and 3 read
      back, so the program throws exactly at size 4: `NoSuchFileException`,
      unless the comparator threw at size 2 already. */
  lemma MainOnDriverOutput(listing: seq<string>, outcome: (nat, string) -> Record)
    requires WellFormedListing(listing) && |ResultFiles(listing)| > 0
    requires forall k: nat, n :: IsWritable(outcome(k, n))
    ensures Main(MainDriver.MainOutput(MainDriver.ALGORITHM, listing, outcome), ALGORITHM, listing)
         == Failure(if SortInstances(listing).Failure? then SortInstances(listing).error else NoSuchFile)
  {
    if SortInstances(listing).Success? {
      var fs := MainDriver.MainOutput(MainDriver.ALGORITHM, listing, outcome);
      var rs := RunEach(fs, Settings(ALGORITHM), listing);
      DriverSizesReadBack(listing, outcome);
      FirstFailureAfterTwo(rs);
      CollectAtFirstFailure(rs, 2);
      assert Main(fs, ALGORITHM, listing) == Collect(rs);
    } else {
      var fs := MainDriver.MainOutput(MainDriver.ALGORITHM, listing, outcome);
      assert Main(fs, ALGORITHM, listing) == Failure(SortInstances(listing).error);
    }
  }

  /** The steps of `main` on the driver's output: the two sizes the driver
      runs read back, the next one throws `NoSuchFileException`. */
  lemma DriverSizesReadBack(listing: seq<string>, outcome: (nat, string) -> Record)
    requires WellFormedListing(listing) && |ResultFiles(listing)| > 0 && SortInstances(listing).Success?
    requires forall k: nat, n :: IsWritable(outcome(k, n))
    ensures |RunEach(MainDriver.MainOutput(MainDriver.ALGORITHM, listing, outcome), Settings(ALGORITHM), listing)| > 2
    ensures RunEach(MainDriver.MainOutput(MainDriver.ALGORITHM, listing, outcome), Settings(ALGORITHM), listing)[0].Success?
    ensures RunEach(MainDriver.MainOutput(MainDriver.ALGORITHM, listing, outcome), Settings(ALGORITHM), listing)[1].Success?
    ensures RunEach(MainDriver.MainOutput(MainDriver.ALGORITHM, listing, outcome), Settings(ALGORITHM), listing)[2] == Failure(NoSuchFile)
  {
    DriverSizeReadsBack(listing, outcome, 0);
    DriverSizeReadsBack(listing, outcome, 1);
    SizeFourMissing(listing, outcome);
  }

  /** The steps of `main` for the sizes 2 and 3 succeed. */
  lemma DriverSizeReadsBack(listing: seq<string>, outcome: (nat, string) -> Record, i: nat)
    requires WellFormedListing(listing) && SortInstances(listing).Success? && i < 2
    requires forall k: nat, n :: IsWritable(outcome(k, n))
    ensures |RunEach(MainDriver.MainOutput(MainDriver.ALGORITHM, listing, outcome), Settings(ALGORITHM), listing)| > 2
    ensures RunEach(MainDriver.MainOutput(MainDriver.ALGORITHM, listing, outcome), Settings(ALGORITHM), listing)[i].Success?
  {
    SettingsSpec(POP_VND);
    var settings := Settings(ALGORITHM);
    WrittenSettingSucceeds(listing, outcome, settings[i]);
    RunEachAt(MainDriver.MainOutput(MainDriver.ALGORITHM, listing, outcome), settings, listing, i);
  }

  /** The step of `main` for the size 4 throws `NoSuchFileException`. */
  lemma SizeFourMissing(listing: seq<string>, outcome: (nat, string) -> Record)
    requires WellFormedListing(listing) && |ResultFiles(listing)| > 0 && SortInstances(listing).Success?
    ensures |RunEach(MainDriver.MainOutput(MainDriver.ALGORITHM, listing, outcome), Settings(ALGORITHM), listing)| > 2
    ensures RunEach(MainDriver.MainOutput(MainDriver.ALGORITHM, listing, outcome), Settings(ALGORITHM), listing)[2] == Failure(NoSuchFile)
  {
    SettingsSpec(POP_VND);
    var settings := Settings(ALGORITHM);
    UnwrittenSettingFails(listing, outcome, settings[2]);
    RunEachAt(MainDriver.MainOutput(MainDriver.ALGORITHM, listing, outcome), settings, listing, 2);
  }

  /** A POP_VND setting the driver runs reads back in full. */
  lemma WrittenSettingSucceeds(listing: seq<string>, outcome: (nat, string) -> Record, c: RunConfig)
    requires WellFormedListing(listing) && SortInstances(listing).Success?
    requires MainDriver.Scheduled(POP_VND, c)
    requires forall k: nat, n :: IsWritable(outcome(k, n))
    ensures RunInstance(MainDriver.MainOutput(POP_VND, listing, outcome), c, listing).Success?
  {
    WrittenSettingReadsBack(POP_VND, listing, outcome, c);
  }

  /** Step `i` of `main` runs the `i`-th setting. */
  lemma RunEachAt(fs: FileSystem, settings: seq<RunConfig>, listing: seq<string>, i: nat)
    requires i < |settings|
    ensures |RunEach(fs, settings, listing)| == |settings|
    ensures RunEach(fs, settings, listing)[i] == RunInstance(fs, settings[i], listing)
  {
  }

  /** Under a setting the sweep runs, the file of every instance the
      statistics program reads holds one record per call of that setting,
      in call order: `REPETITION_COUNT` of them. */
  lemma WrittenFileReadsBack(algorithm: Algorithm, listing: seq<string>, outcome: (nat, string) -> Record, c: RunConfig, f: string)
    requires WellFormedListing(listing) && SortInstances(listing).Success?
    requires f in ResultFiles(SortInstances(listing).value)
    requires MainDriver.Scheduled(algorithm, c)
    requires forall k: nat, n :: IsWritable(outcome(k, n))
    ensures ReadSeries(MainDriver.MainOutput(algorithm, listing, outcome), ReaderPath(c, f))
         == Success(MainDriver.RecordsOf(MainDriver.Sweep(algorithm), c, InstanceName(f), outcome, 0))
    ensures |MainDriver.RecordsOf(MainDriver.Sweep(algorithm), c, InstanceName(f), outcome, 0)| == MainDriver.REPETITION_COUNT
  {
    ResultFileOfReordered(listing, SortInstances(listing).value, f);
    ReaderPathOfPlainFile(c, f);
    InstanceNamesWellFormed(listing);
    MainDriver.SweepRecordCount(algorithm, c, InstanceName(f), outcome);
    MainDriver.SweepFileReadsBack(algorithm, InstanceNames(listing), outcome, c, InstanceName(f));
  }

  /** `WrittenFileReadsBack` for every file the statistics program reads. */
  lemma WrittenFilesReadBack(algorithm: Algorithm, listing: seq<string>, outcome: (nat, string) -> Record, c: RunConfig)
    requires WellFormedListing(listing) && SortInstances(listing).Success?
    requires MainDriver.Scheduled(algorithm, c)
    requires forall k: nat, n :: IsWritable(outcome(k, n))
    ensures var files := ResultFiles(SortInstances(listing).value);
            var paths := ReaderPaths(c, files);
            forall i :: 0 <= i < |files| ==>
              && ReadSeries(MainDriver.MainOutput(algorithm, listing, outcome), paths[i])
                 == Success(MainDriver.RecordsOf(MainDriver.Sweep(algorithm), c, InstanceName(files[i]), outcome, 0))
              && |MainDriver.RecordsOf(MainDriver.Sweep(algorithm), c, InstanceName(files[i]), outcome, 0)| == MainDriver.REPETITION_COUNT
  {
    var files := ResultFiles(SortInstances(listing).value);
    var paths := ReaderPaths(c, files);
    forall i | 0 <= i < |files|
      ensures ReadSeries(MainDriver.MainOutput(algorithm, listing, outcome), paths[i])
              == Success(MainDriver.RecordsOf(MainDriver.Sweep(algorithm), c, InstanceName(files[i]), outcome, 0))
      ensures |MainDriver.RecordsOf(MainDriver.Sweep(algorithm), c, InstanceName(files[i]), outcome, 0)| == MainDriver.REPETITION_COUNT
    {
      assert paths[i] == ReaderPath(c, files[i]);
      WrittenFileReadsBack(algorithm, listing, outcome, c, files[i]);
    }
  }

  /** Under a setting the sweep runs, the statistics program reads, for
      every instance in sorted order, the records of that setting's runs. */
  lemma WrittenSettingReadsBack(algorithm: Algorithm, listing: seq<string>, outcome: (nat, string) -> Record, c: RunConfig)
    requires WellFormedListing(listing) && SortInstances(listing).Success?
    requires MainDriver.Scheduled(algorithm, c)
    requires forall k: nat, n :: IsWritable(outcome(k, n))
    ensures var files := ResultFiles(SortInstances(listing).value);
            var r := RunInstance(MainDriver.MainOutput(algorithm, listing, outcome), c, listing);
            && r.Success? && |r.value| == |files|
            && forall i :: 0 <= i < |files| ==>
                 && r.value[i] == MainDriver.RecordsOf(MainDriver.Sweep(algorithm), c, InstanceName(files[i]), outcome, 0)
                 && |r.value[i]| == MainDriver.REPETITION_COUNT
  {
    WrittenFilesReadBack(algorithm, listing, outcome, c);
    RunInstanceReads(MainDriver.MainOutput(algorithm, listing, outcome), c, listing);
  }

  /** Configured for VND, the statistics program reads every result file
      the driver configured for VND wrote. */
  lemma VndMainReadsBack(listing: seq<string>, outcome: (nat, string) -> Record)
    requires WellFormedListing(listing) && SortInstances(listing).Success?
    requires forall k: nat, n :: IsWritable(outcome(k, n))
    ensures Main(MainDriver.MainOutput(VND, listing, outcome), VND, listing).Success?
  {
    WrittenSettingReadsBack(VND, listing, outcome, Setting(VND, 0));
  }
}
