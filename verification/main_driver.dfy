/** `main.Main`: the experiment driver. It sweeps the run parameters, runs
    every instance of `data/` once per setting, and appends each run's
    `time,length` record to a result file whose path spells out the
    setting. */
module MainDriver {
  import opened Wrappers
  import opened JavaStrings
  import opened JavaIntegers
  import opened Solutions
  import opened Experiment
  import opened FilePaths
  import opened Loops
  import opened Records
  import opened ResultStore
  import opened InstanceFiles

  const ALGORITHM: Algorithm := POP_VND
  const THREAD_COUNT: int := 1
  const SHUFFLE_OPTIONS: seq<bool> := [false, true]
  /** `Type.values()`, in declaration order. */
  const TYPE_OPTIONS: seq<SearchType> := [BEST, FIRST, RANDOM]
  const MIN_POPULATION_SIZE: int := 2
  const MAX_POPULATION_SIZE: int := 3
  const REPETITION_COUNT: int := 5

  // ---------------------------------------------------------------------
  // `getInitialSolution`, the driver's own copy of the start solution.

  /** The loop from `i` on: while `i < dimension`, append the route `[i]`. */
  function AppendRoutes(i: nat, dimension: int, routes: Solution): Solution
    decreases dimension - i
  {
    if i < dimension then AppendRoutes(i + 1, dimension, routes + [[i]]) else routes
  }

  /** The loop run from `i = 1` on an empty solution. */
  function InitialSolution(dimension: int): (r: Solution)
    ensures |r| == if dimension > 1 then dimension - 1 else 0
    ensures forall k :: 0 <= k < |r| ==> r[k] == [k + 1]
  {
    AppendRoutesEffect(1, dimension, []);
    AppendRoutes(1, dimension, [])
  }

  /** From `i` on, the loop appends the singletons `[i]`, `[i+1]`, ..., `[dimension-1]`. */
  lemma {:induction false} AppendRoutesEffect(i: nat, dimension: int, routes: Solution)
    ensures AppendRoutes(i, dimension, routes)
         == routes + seq(if i < dimension then dimension - i else 0, (k: nat) => [i + k])
    decreases dimension - i
  {
    if i < dimension {
      AppendRoutesEffect(i + 1, dimension, routes + [[i]]);
      var n := dimension - i;
      var later := seq(n - 1, (k: nat) => [i + 1 + k]);
      var all := seq(n, (k: nat) => [i + k]);
      assert all == [[i]] + later;
      assert routes + [[i]] + later == routes + all;
    } else {
      assert routes + [] == routes;
    }
  }

  /** The driver's copy builds the same solution as
      `StartSolution.getInitialSolution`: the singletons `[1]` to
      `[dimension-1]`, a partition of the customers. */
  lemma InitialSolutionIsStartSolution(dimension: int)
    ensures InitialSolution(dimension) == Singletons(dimension)
    ensures IsPartition(InitialSolution(dimension), dimension)
  {
    AppendRoutesEffect(1, dimension, []);
    var n := if 1 < dimension then dimension - 1 else 0;
    assert [] + seq(n, (k: nat) => [1 + k]) == Singletons(dimension);
    SingletonsArePartition(dimension);
  }

  // ---------------------------------------------------------------------
  // The parameter sweep of `main`: which settings `runAllInstances` sees.

  /** The POP_VND loop over population sizes from `pop` to the maximum. */
  function PopulationLoop(pop: int, shuffle: bool, t: SearchType): seq<RunConfig>
    decreases MAX_POPULATION_SIZE - pop
  {
    if pop <= MAX_POPULATION_SIZE then
      [RunConfig(POP_VND, pop, shuffle, t, THREAD_COUNT)] + PopulationLoop(pop + 1, shuffle, t)
    else []
  }

  /** One repetition: every population size for POP_VND, a single run
      otherwise, with `POPULATION_SIZE` still at its initial 0. */
  function Repetition(algorithm: Algorithm, shuffle: bool, t: SearchType): seq<RunConfig> {
    if algorithm == POP_VND then PopulationLoop(MIN_POPULATION_SIZE, shuffle, t)
    else [RunConfig(algorithm, 0, shuffle, t, THREAD_COUNT)]
  }

  /** The repetition loop: `REPETITION_COUNT` identical passes. */
  function RepetitionLoop(algorithm: Algorithm, shuffle: bool, t: SearchType): seq<RunConfig> {
    Repeat(REPETITION_COUNT, Repetition(algorithm, shuffle, t))
  }

  /** The loop over the search types. */
  function TypeLoop(types: seq<SearchType>, algorithm: Algorithm, shuffle: bool): seq<RunConfig> {
    if |types| == 0 then []
    else RepetitionLoop(algorithm, shuffle, types[0]) + TypeLoop(types[1..], algorithm, shuffle)
  }

  /** The outer loop over the shuffle options. */
  function ShuffleLoop(options: seq<bool>, algorithm: Algorithm): seq<RunConfig> {
    if |options| == 0 then []
    else TypeLoop(TYPE_OPTIONS, algorithm, options[0]) + ShuffleLoop(options[1..], algorithm)
  }

  /** The settings of the successive `runAllInstances` calls of `main`,
      for either value of `ALGORITHM`. */
  function Sweep(algorithm: Algorithm): (runs: seq<RunConfig>)
    ensures |runs| == if algorithm == POP_VND then 60 else 30
  {
    TypeLoopLength(TYPE_OPTIONS, algorithm, false);
    TypeLoopLength(TYPE_OPTIONS, algorithm, true);
    var options := SHUFFLE_OPTIONS;
    assert options[1..] == [true] && options[1..][1..] == [];
    ShuffleLoop(SHUFFLE_OPTIONS, algorithm)
  }

  /** The settings the sweep is meant to cover: the algorithm and thread
      count of the driver, any shuffle option and type, and a population
      size from the configured range (POP_VND) or the unset 0 (VND). */
  predicate Scheduled(algorithm: Algorithm, c: RunConfig) {
    && c.algorithm == algorithm
    && c.threadCount == THREAD_COUNT
    && (if algorithm == POP_VND
        then MIN_POPULATION_SIZE <= c.populationSize <= MAX_POPULATION_SIZE
        else c.populationSize == 0)
  }

  /** The population loop visits each size from `pop` to the maximum once. */
  lemma {:induction false} PopulationLoopCount(pop: int, shuffle: bool, t: SearchType, c: RunConfig)
    ensures Count(PopulationLoop(pop, shuffle, t), c)
         == if && c.algorithm == POP_VND && c.shuffle == shuffle && c.searchType == t
               && c.threadCount == THREAD_COUNT && pop <= c.populationSize <= MAX_POPULATION_SIZE
            then 1 else 0
    decreases MAX_POPULATION_SIZE - pop
  {
    if pop <= MAX_POPULATION_SIZE {
      var here := RunConfig(POP_VND, pop, shuffle, t, THREAD_COUNT);
      PopulationLoopCount(pop + 1, shuffle, t, c);
      assert c == here <==> && c.algorithm == POP_VND && c.shuffle == shuffle && c.searchType == t
                            && c.threadCount == THREAD_COUNT && c.populationSize == pop;
      assert PopulationLoop(pop, shuffle, t)[1..] == PopulationLoop(pop + 1, shuffle, t);
    }
  }

  /** One repetition runs each scheduled setting of its shuffle option and
      type once. */
  lemma RepetitionCount(algorithm: Algorithm, shuffle: bool, t: SearchType, c: RunConfig)
    ensures Count(Repetition(algorithm, shuffle, t), c)
         == if Scheduled(algorithm, c) && c.shuffle == shuffle && c.searchType == t then 1 else 0
  {
    if algorithm == POP_VND {
      PopulationLoopCount(MIN_POPULATION_SIZE, shuffle, t, c);
    } else {
      var runs := Repetition(algorithm, shuffle, t);
      assert runs[1..] == [];
    }
  }

  /** The repetition loop runs each of those settings `REPETITION_COUNT` times. */
  lemma RepetitionLoopCount(algorithm: Algorithm, shuffle: bool, t: SearchType, c: RunConfig)
    ensures Count(RepetitionLoop(algorithm, shuffle, t), c)
         == if Scheduled(algorithm, c) && c.shuffle == shuffle && c.searchType == t
            then REPETITION_COUNT else 0
  {
    RepetitionCount(algorithm, shuffle, t, c);
    RepeatCount(REPETITION_COUNT, Repetition(algorithm, shuffle, t), c);
  }

  /** A type loop over types that hold each type at most once runs each
      scheduled setting of a listed type `REPETITION_COUNT` times. */
  lemma {:induction false} TypeLoopCount(types: seq<SearchType>, algorithm: Algorithm, shuffle: bool, c: RunConfig)
    requires Count(types, c.searchType) <= 1
    ensures Count(TypeLoop(types, algorithm, shuffle), c)
         == if Scheduled(algorithm, c) && c.shuffle == shuffle && Count(types, c.searchType) == 1
            then REPETITION_COUNT else 0
  {
    if |types| > 0 {
      TypeLoopCount(types[1..], algorithm, shuffle, c);
      RepetitionLoopCount(algorithm, shuffle, types[0], c);
      CountAppend(RepetitionLoop(algorithm, shuffle, types[0]), TypeLoop(types[1..], algorithm, shuffle), c);
    }
  }

  /** `Type.values()` lists every type once. */
  lemma TypeOptionsOnce(t: SearchType)
    ensures Count(TYPE_OPTIONS, t) == 1
  {
    var types := TYPE_OPTIONS;
    assert types[1..] == [FIRST, RANDOM] && types[1..][1..] == [RANDOM] && types[1..][1..][1..] == [];
    assert Count([RANDOM], t) == if t == RANDOM then 1 else 0;
  }

  /** `{false, true}` lists either value once. */
  lemma ShuffleOptionsOnce(b: bool)
    ensures Count(SHUFFLE_OPTIONS, b) == 1
  {
    var options := SHUFFLE_OPTIONS;
    assert options[1..] == [true] && options[1..][1..] == [];
    assert Count([true], b) == if b then 1 else 0;
  }

  /** The shuffle loop, likewise, over options that hold each value at most once. */
  lemma {:induction false} ShuffleLoopCount(options: seq<bool>, algorithm: Algorithm, c: RunConfig)
    requires Count(options, c.shuffle) <= 1
    ensures Count(ShuffleLoop(options, algorithm), c)
         == if Scheduled(algorithm, c) && Count(options, c.shuffle) == 1 then REPETITION_COUNT else 0
  {
    if |options| > 0 {
      ShuffleLoopCount(options[1..], algorithm, c);
      TypeOptionsOnce(c.searchType);
      TypeLoopCount(TYPE_OPTIONS, algorithm, options[0], c);
      CountAppend(TypeLoop(TYPE_OPTIONS, algorithm, options[0]), ShuffleLoop(options[1..], algorithm), c);
    }
  }

  /** `main` calls `runAllInstances` exactly `REPETITION_COUNT` times for
      every scheduled setting and never for any other: once per shuffle
      option, type, repetition and (for POP_VND) population size. */
  lemma SweepCount(algorithm: Algorithm, c: RunConfig)
    ensures multiset(Sweep(algorithm))[c] == if Scheduled(algorithm, c) then REPETITION_COUNT else 0
  {
    var runs := Sweep(algorithm);
    assert Count(runs, c) == if Scheduled(algorithm, c) then REPETITION_COUNT else 0 by {
      ShuffleOptionsOnce(c.shuffle);
      ShuffleLoopCount(SHUFFLE_OPTIONS, algorithm, c);
    }
    CountIsMultiplicity(runs, c);
  }

  /** Each type runs 10 POP_VND settings or 5 VND settings. */
  lemma {:induction false} TypeLoopLength(types: seq<SearchType>, algorithm: Algorithm, shuffle: bool)
    ensures |TypeLoop(types, algorithm, shuffle)| == if algorithm == POP_VND then 10 * |types| else 5 * |types|
  {
    if |types| > 0 {
      TypeLoopLength(types[1..], algorithm, shuffle);
      var runs := Repetition(algorithm, shuffle, types[0]);
      if algorithm == POP_VND {
        assert PopulationLoop(MAX_POPULATION_SIZE + 1, shuffle, types[0]) == [];
        assert |runs| == 2;
      }
      RepeatLength(REPETITION_COUNT, runs);
    }
  }

  /** 2 shuffle options, 3 types, 5 repetitions and, for POP_VND, 2
      population sizes: 60 calls for POP_VND, 30 for VND. */
  lemma SweepLength(algorithm: Algorithm)
    ensures |Sweep(algorithm)| == if algorithm == POP_VND then 60 else 30
  {
    TypeLoopLength(TYPE_OPTIONS, algorithm, false);
    TypeLoopLength(TYPE_OPTIONS, algorithm, true);
    var options := SHUFFLE_OPTIONS;
    assert options[1..] == [true] && options[1..][1..] == [];
  }

  // ---------------------------------------------------------------------
  // The result file of `runInstance`.

  /** The path built in `runInstance`: the algorithm's directory, the
      population size (POP_VND only), `shuff_<b>`, `type_<T>`,
      `thread_<c>` (POP_VND only), then `<name>.txt`. */
  function OutputPath(cfg: RunConfig, name: string): (p: string)
    ensures EndsWith(p, name + ".txt")
  {
    var path := "output/" + AlgorithmDir(cfg.algorithm) + "/";
    var path := if cfg.algorithm == POP_VND then path + (IntToString(cfg.populationSize) + "/") else path;
    var path := path + ("shuff_" + BoolToString(cfg.shuffle) + "/");
    var path := path + ("type_" + TypeName(cfg.searchType) + "/");
    var path := if cfg.algorithm == POP_VND then path + ("thread_" + IntToString(cfg.threadCount) + "/") else path;
    path + (name + ".txt")
  }

  /** The directories of a result file, one per run parameter that
      distinguishes it. */
  function OutputDirs(cfg: RunConfig): seq<string> {
    var alg := AlgorithmDir(cfg.algorithm);
    var shuff := "shuff_" + BoolToString(cfg.shuffle);
    var typ := "type_" + TypeName(cfg.searchType);
    if cfg.algorithm == POP_VND
    then ["output", alg, IntToString(cfg.populationSize), shuff, typ, "thread_" + IntToString(cfg.threadCount)]
    else ["output", alg, shuff, typ]
  }

  /** A printed number holds no `/`. */
  lemma NumberHasNoSlash(i: int)
    ensures '/' !in IntToString(i)
  {
    var s := IntToString(i);
    if i >= 0 {
      assert forall k :: 0 <= k < |s| ==> IsDigit(s[k]);
    } else {
      var digits := s[1..];
      assert forall k :: 0 <= k < |digits| ==> IsDigit(digits[k]);
      assert s == [s[0]] + digits;
    }
  }

  /** The segments a setting contributes hold no `/`. */
  lemma SegmentsHaveNoSlash(cfg: RunConfig)
    ensures '/' !in "output" && '/' !in AlgorithmDir(cfg.algorithm)
    ensures '/' !in "shuff_" + BoolToString(cfg.shuffle)
    ensures '/' !in "type_" + TypeName(cfg.searchType)
    ensures '/' !in IntToString(cfg.populationSize)
    ensures '/' !in "thread_" + IntToString(cfg.threadCount)
  {
    NumberHasNoSlash(cfg.populationSize);
    ThreadSegmentHasNoSlash(cfg.threadCount);
    ShuffleSegmentHasNoSlash(cfg.shuffle);
    TypeSegmentHasNoSlash(cfg.searchType);
  }

  lemma ThreadSegmentHasNoSlash(n: int)
    ensures '/' !in "thread_" + IntToString(n)
  {
    NumberHasNoSlash(n);
  }

  lemma ShuffleSegmentHasNoSlash(b: bool)
    ensures '/' !in "shuff_" + BoolToString(b)
  {
  }

  lemma TypeSegmentHasNoSlash(t: SearchType)
    ensures '/' !in "type_" + TypeName(t)
  {
  }

  lemma OutputDirsSlashFree(cfg: RunConfig)
    ensures SeparatorFree(OutputDirs(cfg), '/')
  {
    var alg := AlgorithmDir(cfg.algorithm);
    var shuff := "shuff_" + BoolToString(cfg.shuffle);
    var typ := "type_" + TypeName(cfg.searchType);
    SegmentsHaveNoSlash(cfg);
    if cfg.algorithm == POP_VND {
      var pop := IntToString(cfg.populationSize);
      var thread := "thread_" + IntToString(cfg.threadCount);
      SlashFreeSix("output", alg, pop, shuff, typ, thread);
      assert OutputDirs(cfg) == ["output", alg, pop, shuff, typ, thread];
    } else {
      SlashFreeFour("output", alg, shuff, typ);
      assert OutputDirs(cfg) == ["output", alg, shuff, typ];
    }
  }

  lemma SlashFreeFour(a: string, b: string, c: string, d: string)
    requires '/' !in a && '/' !in b && '/' !in c && '/' !in d
    ensures SeparatorFree([a, b, c, d], '/')
  {
  }

  lemma SlashFreeSix(a: string, b: string, c: string, d: string, e: string, f: string)
    requires '/' !in a && '/' !in b && '/' !in c && '/' !in d && '/' !in e && '/' !in f
    ensures SeparatorFree([a, b, c, d, e, f], '/')
  {
  }

  /** The path built step by step is the directories, each followed by
      `/`, then `<name>.txt`. */
  lemma OutputPathIsDirPath(cfg: RunConfig, name: string)
    ensures OutputPath(cfg, name) == DirPath(OutputDirs(cfg)) + (name + ".txt")
  {
    var alg := AlgorithmDir(cfg.algorithm);
    var shuff := "shuff_" + BoolToString(cfg.shuffle);
    var typ := "type_" + TypeName(cfg.searchType);
    if cfg.algorithm == POP_VND {
      var pop := IntToString(cfg.populationSize);
      var thread := "thread_" + IntToString(cfg.threadCount);
      assert OutputDirs(cfg) == ["output", alg, pop, shuff, typ, thread];
      SixSegments(alg, pop, shuff, typ, thread, name + ".txt");
    } else {
      assert OutputDirs(cfg) == ["output", alg, shuff, typ];
      FourSegments(alg, shuff, typ, name + ".txt");
    }
  }

  /** The first two directories give the path's first two segments. */
  lemma StartSegments(alg: string)
    ensures "output/" + alg + "/" == DirPath(["output", alg])
  {
    var dirs := ["output", alg];
    assert dirs[1..] == [alg] && dirs[1..][1..] == [];
    assert DirPath([alg]) == alg + "/";
  }

  /** The VND path, appended segment by segment, is `DirPath` of its directories. */
  lemma FourSegments(alg: string, shuff: string, typ: string, file: string)
    ensures "output/" + alg + "/" + (shuff + "/") + (typ + "/") + file
         == DirPath(["output", alg, shuff, typ]) + file
  {
    var d2 := ["output", alg];
    StartSegments(alg);
    DirPathSnoc(d2, shuff);
    DirPathSnoc(d2 + [shuff], typ);
    assert d2 + [shuff] + [typ] == ["output", alg, shuff, typ];
  }

  /** The POP_VND path, appended segment by segment, is `DirPath` of its directories. */
  lemma SixSegments(alg: string, pop: string, shuff: string, typ: string, thread: string, file: string)
    ensures "output/" + alg + "/" + (pop + "/") + (shuff + "/") + (typ + "/") + (thread + "/") + file
         == DirPath(["output", alg, pop, shuff, typ, thread]) + file
  {
    var d2 := ["output", alg];
    var d3 := d2 + [pop];
    var d4 := d3 + [shuff];
    var d5 := d4 + [typ];
    StartSegments(alg);
    DirPathSnoc(d2, pop);
    DirPathSnoc(d3, shuff);
    DirPathSnoc(d4, typ);
    DirPathSnoc(d5, thread);
    assert d5 + [thread] == ["output", alg, pop, shuff, typ, thread];
  }

  /** Two settings have the same directories exactly when they agree on
      the parameters that appear in a path. */
  lemma OutputDirsInjective(c1: RunConfig, c2: RunConfig)
    ensures OutputDirs(c1) == OutputDirs(c2) <==> SamePathParameters(c1, c2)
  {
    var d1, d2 := OutputDirs(c1), OutputDirs(c2);
    if d1 == d2 {
      NamesInjective(c1.algorithm, c2.algorithm, c1.searchType, c2.searchType, c1.shuffle, c2.shuffle);
      assert |d1| == |d2|;
      assert c1.algorithm == c2.algorithm;
      var k := if c1.algorithm == POP_VND then 3 else 2;
      LabelInjective("shuff_", BoolToString(c1.shuffle), BoolToString(c2.shuffle));
      LabelInjective("type_", TypeName(c1.searchType), TypeName(c2.searchType));
      assert d1[k] == d2[k] && d1[k + 1] == d2[k + 1];
      if c1.algorithm == POP_VND {
        assert d1[2] == d2[2] && d1[5] == d2[5];
        IntToStringInjective(c1.populationSize, c2.populationSize);
        LabelInjective("thread_", IntToString(c1.threadCount), IntToString(c2.threadCount));
        IntToStringInjective(c1.threadCount, c2.threadCount);
      }
    }
  }

  /** Splitting a result path on `/` gives its directories and file name:
      seven parts for POP_VND, five for VND. */
  lemma OutputPathPieces(cfg: RunConfig, name: string)
    requires '/' !in name
    ensures Pieces(OutputPath(cfg, name), '/') == OutputDirs(cfg) + [name + ".txt"]
    ensures |Pieces(OutputPath(cfg, name), '/')| == if cfg.algorithm == POP_VND then 7 else 5
  {
    OutputPathIsDirPath(cfg, name);
    OutputDirsSlashFree(cfg);
    PiecesOfPath(OutputDirs(cfg), name + ".txt");
  }

  /** `"shuff_" + b` and `"type_" + t` keep their value. */
  lemma LabelInjective(tag: string, a: string, b: string)
    ensures tag + a == tag + b ==> a == b
  {
    if tag + a == tag + b {
      assert a == (tag + a)[|tag|..];
      assert b == (tag + b)[|tag|..];
    }
  }

  /** Two runs append to the same file exactly when they agree on the run
      parameters in its path and on the instance name; in particular the
      population size and thread count separate POP_VND files only. */
  lemma OutputPathInjective(c1: RunConfig, name1: string, c2: RunConfig, name2: string)
    requires '/' !in name1 && '/' !in name2
    ensures OutputPath(c1, name1) == OutputPath(c2, name2)
        <==> SamePathParameters(c1, c2) && name1 == name2
  {
    OutputPathIsDirPath(c1, name1);
    OutputPathIsDirPath(c2, name2);
    OutputDirsSlashFree(c1);
    OutputDirsSlashFree(c2);
    assert '/' !in name1 + ".txt" && '/' !in name2 + ".txt";
    PathInjective(OutputDirs(c1), name1 + ".txt", OutputDirs(c2), name2 + ".txt");
    OutputDirsInjective(c1, c2);
    if name1 + ".txt" == name2 + ".txt" {
      assert name1 == (name1 + ".txt")[..|name1|];
      assert name2 == (name2 + ".txt")[..|name2|];
    }
  }

  // ---------------------------------------------------------------------
  // What the runs leave in `output/`.

  /** The appends of one `runAllInstances` call: for each name in turn, the
      record line of its run to its result file. `outcome` stands for the
      engine: the record the run of a named instance produced. */
  function RunAllInstances(cfg: RunConfig, names: seq<string>, outcome: string -> Record): (ws: seq<Write>)
    ensures |ws| == |names|
    ensures forall i :: 0 <= i < |names| ==> ws[i].0 == OutputPath(cfg, names[i])
  {
    if |names| == 0 then []
    else [(OutputPath(cfg, names[0]), RecordLine(outcome(names[0])))] + RunAllInstances(cfg, names[1..], outcome)
  }

  /** A call appends to no result file of a setting whose path parameters differ from its own. */
  lemma RunAllInstancesAvoids(cfg: RunConfig, names: seq<string>, outcome: string -> Record, c: RunConfig, n: string)
    requires forall i :: 0 <= i < |names| ==> '/' !in names[i]
    requires '/' !in n && !SamePathParameters(cfg, c)
    ensures Untouched(RunAllInstances(cfg, names, outcome), OutputPath(c, n))
  {
    forall i | 0 <= i < |names|
      ensures OutputPath(cfg, names[i]) != OutputPath(c, n)
    {
      OutputPathInjective(cfg, names[i], c, n);
    }
  }

  /** Within one call over distinct names, the result file of a setting
      and a name receives that name's record line when the call's setting
      shares the file's path parameters and the name is run, and nothing
      otherwise. */
  lemma {:induction false} RunAllInstancesLines(cfg: RunConfig, names: seq<string>, outcome: string -> Record, c: RunConfig, n: string)
    requires Distinct(names) && forall i :: 0 <= i < |names| ==> '/' !in names[i]
    requires '/' !in n
    ensures LinesTo(RunAllInstances(cfg, names, outcome), OutputPath(c, n))
         == if SamePathParameters(cfg, c) && n in names then RecordLine(outcome(n)) else []
    decreases |names|
  {
    if |names| > 0 {
      var rest := names[1..];
      assert forall i :: 0 <= i < |rest| ==> rest[i] == names[i + 1];
      RunAllInstancesLines(cfg, rest, outcome, c, n);
      OutputPathInjective(cfg, names[0], c, n);
      assert n in names <==> n == names[0] || n in rest;
      assert names[0] !in rest;
    }
  }

  /** The appends of `main`: one `runAllInstances` call per setting of the
      sweep, the run of a name in call `k` producing `outcome(k, name)`. */
  function SweepWrites(runs: seq<RunConfig>, names: seq<string>, outcome: (nat, string) -> Record, k: nat): seq<Write>
    decreases |runs|
  {
    if |runs| == 0 then []
    else RunAllInstances(runs[0], names, n => outcome(k, n)) + SweepWrites(runs[1..], names, outcome, k + 1)
  }

  /** The records of the calls whose setting shares the path parameters of
      `c`, for the name `n`, in the order of the calls. */
  function RecordsOf(runs: seq<RunConfig>, c: RunConfig, n: string, outcome: (nat, string) -> Record, k: nat): seq<Record>
    decreases |runs|
  {
    if |runs| == 0 then []
    else (if SamePathParameters(runs[0], c) then [outcome(k, n)] else []) + RecordsOf(runs[1..], c, n, outcome, k + 1)
  }

  /** The file of a run name receives, in call order, one record line from
      every call whose setting shares its path parameters. */
  lemma {:induction false} SweepLines(runs: seq<RunConfig>, names: seq<string>, outcome: (nat, string) -> Record, k: nat, c: RunConfig, n: string)
    requires Distinct(names) && forall i :: 0 <= i < |names| ==> '/' !in names[i]
    requires n in names && '/' !in n
    ensures LinesTo(SweepWrites(runs, names, outcome, k), OutputPath(c, n)) == WriteRecords(RecordsOf(runs, c, n, outcome, k))
    decreases |runs|
  {
    if |runs| > 0 {
      var here := RunAllInstances(runs[0], names, m => outcome(k, m));
      var path := OutputPath(c, n);
      SweepLines(runs[1..], names, outcome, k + 1, c, n);
      RunAllInstancesLines(runs[0], names, m => outcome(k, m), c, n);
      LinesToAppend(here, SweepWrites(runs[1..], names, outcome, k + 1), path);
      var rest := RecordsOf(runs[1..], c, n, outcome, k + 1);
      if SamePathParameters(runs[0], c) {
        WriteRecordsCons(outcome(k, n), rest);
        assert RecordsOf(runs, c, n, outcome, k) == [outcome(k, n)] + rest;
      } else {
        assert RecordsOf(runs, c, n, outcome, k) == rest;
      }
    }
  }

  /** No call appends to a result file of a setting no call shares the path parameters of. */
  lemma {:induction false} SweepAvoids(runs: seq<RunConfig>, names: seq<string>, outcome: (nat, string) -> Record, k: nat, c: RunConfig, n: string)
    requires forall i :: 0 <= i < |names| ==> '/' !in names[i]
    requires '/' !in n
    requires forall i :: 0 <= i < |runs| ==> !SamePathParameters(runs[i], c)
    ensures Untouched(SweepWrites(runs, names, outcome, k), OutputPath(c, n))
    decreases |runs|
  {
    if |runs| > 0 {
      var here := RunAllInstances(runs[0], names, m => outcome(k, m));
      var later := SweepWrites(runs[1..], names, outcome, k + 1);
      assert forall i :: 0 <= i < |runs[1..]| ==> runs[1..][i] == runs[i + 1];
      SweepAvoids(runs[1..], names, outcome, k + 1, c, n);
      RunAllInstancesAvoids(runs[0], names, m => outcome(k, m), c, n);
      UntouchedAppend(here, later, OutputPath(c, n));
    }
  }

  /** Every call of the sweep has a scheduled setting. */
  lemma SweepScheduled(algorithm: Algorithm)
    ensures forall i :: 0 <= i < |Sweep(algorithm)| ==> Scheduled(algorithm, Sweep(algorithm)[i])
  {
    var runs := Sweep(algorithm);
    forall c
      ensures multiset(runs)[c] == if Scheduled(algorithm, c) then REPETITION_COUNT else 0
    {
      SweepCount(algorithm, c);
    }
    MembersScheduled(algorithm, runs);
  }

  /** A sequence holding each scheduled setting `REPETITION_COUNT` times and
      nothing else holds only scheduled settings. */
  lemma MembersScheduled(algorithm: Algorithm, runs: seq<RunConfig>)
    requires forall c :: multiset(runs)[c] == if Scheduled(algorithm, c) then REPETITION_COUNT else 0
    ensures forall i :: 0 <= i < |runs| ==> Scheduled(algorithm, runs[i])
  {
    forall i | 0 <= i < |runs|
      ensures Scheduled(algorithm, runs[i])
    {
      assert runs[i] in multiset(runs);
    }
  }

  /** Among scheduled settings, sharing the path parameters is being the same setting. */
  lemma ScheduledSamePath(algorithm: Algorithm, r: RunConfig, c: RunConfig)
    requires Scheduled(algorithm, r) && Scheduled(algorithm, c)
    ensures SamePathParameters(r, c) <==> r == c
  {
  }

  /** Among the calls of a sweep, the calls that write the file of a
      scheduled setting are the calls with that setting. */
  lemma {:induction false} RecordsOfCount(algorithm: Algorithm, runs: seq<RunConfig>, c: RunConfig, n: string, outcome: (nat, string) -> Record, k: nat)
    requires forall i :: 0 <= i < |runs| ==> Scheduled(algorithm, runs[i])
    requires Scheduled(algorithm, c)
    ensures |RecordsOf(runs, c, n, outcome, k)| == Count(runs, c)
    decreases |runs|
  {
    if |runs| > 0 {
      assert forall i :: 0 <= i < |runs[1..]| ==> runs[1..][i] == runs[i + 1];
      RecordsOfCount(algorithm, runs[1..], c, n, outcome, k + 1);
      ScheduledSamePath(algorithm, runs[0], c);
    }
  }

  /** A POP_VND call writes only files of the population sizes the sweep covers. */
  lemma SweepPopulationSizes(algorithm: Algorithm, c: RunConfig)
    ensures forall i :: 0 <= i < |Sweep(algorithm)| && SamePathParameters(Sweep(algorithm)[i], c) ==>
              algorithm == VND || MIN_POPULATION_SIZE <= c.populationSize <= MAX_POPULATION_SIZE
  {
    SweepScheduled(algorithm);
  }

  /** The records of a setting are records some run produced. */
  lemma {:induction false} RecordsOfWritable(runs: seq<RunConfig>, c: RunConfig, n: string, outcome: (nat, string) -> Record, k: nat)
    requires forall j: nat, m :: IsWritable(outcome(j, m))
    ensures forall i :: 0 <= i < |RecordsOf(runs, c, n, outcome, k)| ==> IsWritable(RecordsOf(runs, c, n, outcome, k)[i])
    decreases |runs|
  {
    if |runs| > 0 {
      var head := if SamePathParameters(runs[0], c) then [outcome(k, n)] else [];
      var rest := RecordsOf(runs[1..], c, n, outcome, k + 1);
      RecordsOfWritable(runs[1..], c, n, outcome, k + 1);
      assert RecordsOf(runs, c, n, outcome, k) == head + rest;
      assert forall i :: |head| <= i < |head| + |rest| ==> (head + rest)[i] == rest[i - |head|];
    }
  }

  /** Each setting of the sweep gets `REPETITION_COUNT` records per
      instance. */
  lemma SweepRecordCount(algorithm: Algorithm, c: RunConfig, n: string, outcome: (nat, string) -> Record)
    requires Scheduled(algorithm, c)
    ensures |RecordsOf(Sweep(algorithm), c, n, outcome, 0)| == REPETITION_COUNT
  {
    SweepScheduled(algorithm);
    RecordsOfCount(algorithm, Sweep(algorithm), c, n, outcome, 0);
    SweepCount(algorithm, c);
    CountIsMultiplicity(Sweep(algorithm), c);
  }

  /** Starting from an empty directory, the result file of a setting the
      sweep runs reads back as that setting's records of the instance. */
  lemma SweepFileReadsBack(algorithm: Algorithm, names: seq<string>, outcome: (nat, string) -> Record, c: RunConfig, n: string)
    requires Distinct(names) && forall i :: 0 <= i < |names| ==> '/' !in names[i]
    requires n in names
    requires Scheduled(algorithm, c)
    requires forall j: nat, m :: IsWritable(outcome(j, m))
    ensures ReadSeries(AppendAll(map[], SweepWrites(Sweep(algorithm), names, outcome, 0)), OutputPath(c, n))
         == Success(RecordsOf(Sweep(algorithm), c, n, outcome, 0))
  {
    var rs := RecordsOf(Sweep(algorithm), c, n, outcome, 0);
    SweepRecordCount(algorithm, c, n, outcome);
    RecordsOfWritable(Sweep(algorithm), c, n, outcome, 0);
    SweepLines(Sweep(algorithm), names, outcome, 0, c, n);
    WriteThenRead(map[], SweepWrites(Sweep(algorithm), names, outcome, 0), OutputPath(c, n), rs);
  }

  /** Starting from an empty directory, the result file of a setting whose
      path parameters no call of the sweep shares does not exist. */
  lemma SweepFileMissing(algorithm: Algorithm, names: seq<string>, outcome: (nat, string) -> Record, c: RunConfig, n: string)
    requires forall i :: 0 <= i < |names| ==> '/' !in names[i]
    requires '/' !in n
    requires forall i :: 0 <= i < |Sweep(algorithm)| ==> !SamePathParameters(Sweep(algorithm)[i], c)
    ensures ReadSeries(AppendAll(map[], SweepWrites(Sweep(algorithm), names, outcome, 0)), OutputPath(c, n)) == Failure(NoSuchFile)
  {
    SweepAvoids(Sweep(algorithm), names, outcome, 0, c, n);
    AppendAllKeys(map[], SweepWrites(Sweep(algorithm), names, outcome, 0), OutputPath(c, n));
  }

  /** The content of `output/` after `main` ran over a listing, starting
      from an empty directory. */
  function MainOutput(algorithm: Algorithm, listing: seq<string>, outcome: (nat, string) -> Record): FileSystem {
    AppendAll(map[], SweepWrites(Sweep(algorithm), InstanceNames(listing), outcome, 0))
  }
}
