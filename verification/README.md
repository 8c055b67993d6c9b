# CVRP-POP_VND experiment drivers in Dafny

The repository runs experiments on capacitated vehicle routing (CVRP)
instances. Two drivers run the search engines over every instance file of
`data/`:

- `main.Main` runs the population-based VND (POP_VND) or the plain VND
  over a sweep of settings.
- `sa.PVND_SA_Main` runs simulated annealing.

Each run appends one `time,length` record line to a result file under
`output/`, at a path built from the run's settings and the instance name.
Two statistics programs (`main.ResultStats` and `sa.ResultStats`) then:

- sort the instance files with a comparator on the `(n, k)` fields of names
  such as `A-n32-k5.vrp`;
- skip the optimum files (`.opt`);
- rebuild each result path and parse the records back.

All engines start from the same solution, one singleton route per
customer (`StartSolution.getInitialSolution`, duplicated in `Main`).

The model has one module per concern:

- `Solutions` and `StartSolution`: routes as `seq<nat>` and the initial
  solution. The method builds it with a loop, is proved to build a
  partition of the customers, and matches the driver's own copy
  (`MainDriver.InitialSolution`).
- `Acceptance`: the VND acceptance test `n.length < s.length` as a strict
  order. It also proves that a descent driven by it is bounded.
- `Experiment`: the algorithm and search-type enums, the run settings, and
  the `switch (TYPE)` strategy choices.
- `JavaStrings` and `JavaIntegers`: the Java library calls the programs
  depend on, with Java's semantics.
  - `split` drops trailing empty strings.
  - `replaceAll(".vrp", "")` is a regular expression in which `.` matches
    any character except a line terminator.
  - `replace` is literal.
  - `trim` strips the characters up to `' '`, as Java does; `toLowerCase`
    is modelled on ASCII letters only.
  - `Integer.parseInt` has a sign, decimal digits and the `int` range;
    malformed input is an error result.
  - `Integer.toString` and `Integer.compare`.
  - `Files.lines` line splitting.
- `Records`: the record line `time + "," + length + "\n"` and the parsing
  loop of the statistics programs. Empty lines are skipped, and `split[1]`
  past the end of a line without a second field is an
  `ArrayIndexOutOfBoundsException`. The fields stay text: the
  `Double.parseDouble` that runs first in the source is not modelled (see
  "Left out").
- `ResultStore`: `output/` as a map from path to content.
  - `createNewFile` plus `APPEND` as the write.
  - `Files.lines` of a missing file throws `NoSuchFileException`.
  - Averaging a file without records throws `NoSuchElementException`
    (`getAsDouble`).
  - The statistics loop stops at the first exception.
- `InstanceFiles`: instance names (`replaceAll(".vrp", "")`) and the `.opt`
  filter of the drivers, and the `.opt` skip of the readers.
- `InstanceOrder`: the file comparator, and sorting the listing with it.
  The comparator's `NumberFormatException` on a badly named file is an
  error result.
- `MainDriver` and `MainStats`: the POP_VND/VND driver and its statistics
  program, including:
  - the parameter sweep;
  - the writer and reader paths;
  - what the sweep leaves in `output/` when every run produces a given
    record;
  - what the statistics program then reads back.
- `SaDriver` and `SaStats`: the same for the simulated-annealing driver.

The end-to-end theorems start from an empty `output/` and a listing of
`data/`. Each file name in the listing must be distinct and `/`-free, and
must be an optimum file or a plain instance file (`IsPlainInstanceFile`:
the name ends in `.vrp`, and no other character, line terminators aside,
is followed by `vrp`).
Under those conditions:

- `SaStats.MainReadsBack`: the annealing statistics program reads each
  instance's single record.
- `MainStats.WrittenSettingReadsBack`: under any setting the POP_VND/VND
  sweep runs, the statistics program reads, for every instance in sorted
  order, the five records of that setting's runs in run order.
- `MainStats.UnwrittenSettingFails`, `MainStats.MainFailsOnDriverOutput` and
  `MainStats.MainOnDriverOutput`:
  the two programs are configured inconsistently.
  - The driver runs population sizes 2 to 3 (`Main.java`, line 62).
  - The statistics program reads sizes 2 to 15 (`main/ResultStats.java`,
    line 25).
  - So on the driver's output it fails whenever `data/` holds an instance
    (`MainFailsOnDriverOutput`): the step for size 4 throws
    `NoSuchFileException` unless sorting threw first
    (`UnwrittenSettingFails`), so it fails there at the latest.
  - When every run's record is printable, sizes 2 and 3 read back, so it
    throws exactly at size 4: `NoSuchFileException`, unless the comparator
    threw first (`MainOnDriverOutput`).
- `SaStats.ReaderPathNeedsPlainFile`: the naming condition is needed. For
  `avrp.vrp` the regular expression also removes `avrp`, so the driver
  writes `output/sa/.txt` while the reader opens `output/sa/avrp.txt`.

Where the code and the prose design differ, the model follows the code:

- `replaceAll(".vrp", "")` is modelled as the regular expression it is,
  not as suffix removal. Suffix removal is then proved under an explicit
  naming precondition (`InstanceFiles.InstanceNameOfPlainFile`).
- `Integer.parseInt` is modelled in full with an error result, not under
  a digits-only precondition.

## Model

| member | source | states |
|---|---|---|
| StartSolution.InitialSolution | src/common/StartSolution.java:9-20 | The result has `dimension-1` routes, or none when `dimension <= 1`. Route `k` is exactly `[k+1]`, so the routes rise by customer. The result equals the reference `Singletons(dimension)` and is a partition of the customers. |
| Solutions.SingletonsArePartition | src/common/StartSolution.java:12-16 | The singleton routes visit every customer `1..dimension-1` exactly once and visit nothing else, so never the depot 0. |
| Solutions.SingletonsOccurrences | src/common/StartSolution.java:12-15 | Customer `c` is visited once when `1 <= c < dimension`, and otherwise never. |
| Solutions.PartitionMembership | src/common/StartSolution.java:12-15 | In a partition, a customer on a route is a real customer. It occurs there once and on no other route. |
| MainDriver.AppendRoutesEffect | src/main/Main.java:168-172 | From `i` on, the driver's loop appends the routes `[i]` to `[dimension-1]` in order. |
| MainDriver.InitialSolutionIsStartSolution | src/main/Main.java:165-176 | The driver's copy of `getInitialSolution` builds the same solution as `StartSolution`'s, so it is a partition too. |
| Acceptance.AcceptsExactlyShorter | src/main/Main.java:208 | The test accepts a neighbour exactly when it is strictly shorter. No solution accepts itself. |
| Acceptance.ImprovesIsStrictOrder | src/main/Main.java:208 | Acceptance is transitive and asymmetric. |
| Acceptance.ChainDecreases | src/main/Main.java:208 | Along a chain of accepted moves, lengths strictly decrease between any two positions. |
| Acceptance.ChainBounded | src/main/Main.java:208 | A chain of accepted moves over a finite candidate set is no longer than the set. |
| Experiment.AlgorithmDir | src/main/Main.java:145 | `ALGORITHM.toString().toLowerCase()` holds no `/`. It has 7 characters for POP_VND and 3 for VND. |
| Experiment.StrategiesMatchType | src/main/Main.java:193-271 | In each of the three `switch (TYPE)` statements, every type selects the strategy of its own kind. Every strategy is chosen by exactly that type. |
| Experiment.NamesInjective | src/main/Main.java:145-150 | The directory names tell the algorithm, the search type and the shuffle flag apart. |
| JavaIntegers.NatToDigits | src/main/Main.java:147 | The digits of `n` are non-empty decimal digits that denote `n`. |
| JavaIntegers.IntToString | src/main/Main.java:147 | `Integer.toString` is non-empty: digits, preceded by `-` exactly for negative numbers. |
| JavaIntegers.IntToStringInjective | src/main/Main.java:147 | Different numbers print differently. |
| JavaIntegers.ParseInt | src/main/ResultStats.java:52-56 | `Integer.parseInt` yields only values in the `int` range. Every failure is `NumberFormatException`, and the empty string fails. |
| JavaIntegers.ParseDigits | src/main/ResultStats.java:52-53 | A field of decimal digits within range parses to the number it denotes. |
| JavaIntegers.ParseIntToString | src/main/ResultStats.java:52 | `parseInt` inverts `Integer.toString` on the whole `int` range. |
| JavaIntegers.Compare | src/main/ResultStats.java:58-60 | `Integer.compare` is negative, zero or positive exactly when `x < y`, `x == y` or `x > y`. |
| JavaStrings.IndexOf | src/main/ResultStats.java:92 | The position found holds the separator, and no earlier position does. It is the length when there is no separator. |
| JavaStrings.PiecesJoin | src/main/ResultStats.java:49 | Gluing the pieces of a string back with the separator gives the string. |
| JavaStrings.JoinPieces | src/main/ResultStats.java:49 | Splitting joined separator-free parts gives the parts back. |
| JavaStrings.PiecesSeparatorFree | src/main/ResultStats.java:49 | No piece holds the separator. |
| JavaStrings.Split | src/main/ResultStats.java:92 | `split(",")` yields separator-free parts. A string without the separator gives `[s]`. Otherwise the parts are a prefix of the pieces whose last part is not empty, and every piece dropped after it is empty: the pieces with the trailing empty ones removed. |
| JavaStrings.SplitKeepsAllPieces | src/main/ResultStats.java:92 | When the last piece is not empty, `split` keeps every piece. |
| JavaStrings.SplitKeepsFirstPiece | src/main/ResultStats.java:55 | When the first piece is not empty, `split` keeps it at index 0. |
| JavaStrings.RemoveChar | src/main/ResultStats.java:52 | `replaceAll("n", "")` leaves no `n` and keeps every other character as often as it occurs. It leaves an `n`-free string unchanged. |
| JavaStrings.RemoveCharAppend | src/main/ResultStats.java:52 | Removal works piece by piece: removing from `a + b` is removing from `a`, then from `b`. So the kept characters stay in order. |
| JavaStrings.RemoveCharSingle | src/main/ResultStats.java:52 | A single character is dropped exactly when it is the removed letter. |
| JavaStrings.Trim | src/main/ResultStats.java:52 | `trim` returns a slice of the string; only characters up to `' '` lie before and after it, and its own ends are not such characters. A string without them is unchanged. |
| JavaStrings.TrimStrips | src/main/ResultStats.java:52 | Stripping the start and then the end leaves the slice between the stripped characters. |
| JavaStrings.ReplaceLiteral | src/main/ResultStats.java:82 | `replace(".vrp", ".txt")` leaves a string where the target never occurs unchanged, and keeps the length when target and replacement are equally long. |
| JavaStrings.ReplaceLiteralAfterPrefix | src/main/ResultStats.java:82 | When no character of a prefix starts the target, `replace` on the prefix followed by the target keeps the prefix and replaces only the trailing target. |
| JavaStrings.RemoveAnyThen | src/main/Main.java:104 | `replaceAll(".vrp", "")` never lengthens the string, and leaves it unchanged when the pattern matches nowhere. |
| JavaStrings.Lower | src/main/Main.java:145 | `toLowerCase` keeps the length and lowers each character in place. |
| JavaStrings.RemoveAnyThenWithoutLetter | src/main/ResultStats.java:55 | `replaceAll(".vrp", "")` leaves a string without `v` unchanged, as in the `k` field. |
| JavaStrings.Lines | src/main/ResultStats.java:88 | No line of `Files.lines` holds a line terminator. |
| JavaStrings.LinesCons | src/main/ResultStats.java:88 | A line written with `\n` after it is read back as the first line, followed by the lines of the rest. |
| Records.RecordLineHasOneComma | src/main/Main.java:160 | A record line of comma-free fields holds exactly one comma. |
| Records.RecordLine | src/main/Main.java:160 | When the fields are printable, the line `time,length\n` reads back as exactly one line holding the two fields. |
| Records.ParseLine | src/main/ResultStats.java:89-94 | A line is skipped exactly when it is empty. It throws exactly when it is not empty and splits into fewer than two fields, and then with `ArrayIndexOutOfBoundsException`. A parsed record is the first two comma-separated pieces, which are comma-free and, joined by the comma, start the line. |
| Records.ParseLines | src/main/ResultStats.java:88-98 | The loop yields at most one record per line, and throws only `ArrayIndexOutOfBoundsException`. |
| Records.ParseRecordLine | src/main/ResultStats.java:92-94 | A written line splits back into the time and length it was made of. |
| Records.ReadWrittenRecords | src/main/ResultStats.java:88-98 | A file written record by record reads back as the same records, in order. |
| Records.WriteRecordsCons | src/main/Main.java:160-161 | Writing one more record first puts its line first. |
| ResultStore.AppendLine | src/main/Main.java:155-161 | One append creates the file if need be and adds the line at its end. The other files keep their content and no other file appears. |
| ResultStore.ReadResults | src/main/ResultStats.java:88-98 | Reading throws `NoSuchFileException` exactly when the file is missing; any other exception is `ArrayIndexOutOfBoundsException`. |
| ResultStore.AppendLineEffect | src/main/Main.java:155-161 | After one append the file exists and holds its old content followed by the line. Every other file is unchanged. |
| ResultStore.AppendAllKeys | src/main/Main.java:155-161 | After a series of appends, a file exists exactly when it existed before or was appended to. |
| ResultStore.AppendAllContent | src/main/Main.java:155-161 | After a series of appends, a file holds its old content followed by the lines appended to it, in order. |
| ResultStore.LinesToAppend | src/main/Main.java:161 | The lines two batches of appends send to a file are the first batch's, then the second's. |
| ResultStore.WriteThenRead | src/main/ResultStats.java:88-98 | A file that did not exist and received exactly some records' lines reads back as those records. |
| ResultStore.ReadSeries | src/main/ResultStats.java:100-110 | A series read succeeds exactly when the file reads and holds a record. A missing file throws `NoSuchFileException`. |
| ResultStore.ReadAll | src/main/ResultStats.java:67-98 | The loop over files succeeds exactly when every file's series does, and yields them in order. A failing first file's exception is the result. |
| Wrappers.Collect | src/main/ResultStats.java:67 | Running steps in order succeeds exactly when all do, yielding their values pointwise. Otherwise the result is the first failure. |
| FilePaths.PiecesOfPath | src/main/Main.java:145-154 | Splitting a path on `/` gives back its directory names and file name, when none holds a `/`. |
| FilePaths.PathInjective | src/main/Main.java:145-154 | Such a path determines its directories and its file name. |
| InstanceFiles.InstanceName | src/main/Main.java:104 | The instance name is never longer than the file name, and is the file name itself when `.vrp` matches nowhere in it. |
| InstanceFiles.InstanceNames | src/main/Main.java:104-105 | The drivers run no name ending in `.opt`, and at most one name per listed file. |
| InstanceFiles.ResultFiles | src/main/ResultStats.java:70-71 | The readers keep no file ending in `.opt`, and only files of the listing. |
| InstanceFiles.InstanceNameOfPlainFile | src/main/Main.java:104 | Under the explicit naming precondition, the regular-expression removal is removal of the `.vrp` suffix. |
| InstanceFiles.ReplaceOfPlainFile | src/main/ResultStats.java:82 | On a plain instance file, `replace(".vrp", ".txt")` replaces just the extension. |
| InstanceFiles.InstanceNameKeepsOpt | src/main/Main.java:104-105 | A file ending in `.opt` yields a name ending in `.opt`, so the driver skips what the reader skips. |
| InstanceFiles.InputPathRoundTrip | src/main/Main.java:111 | `InputPath`, the driver's `"data/" + name + ".vrp"`, reopens the listed file of a plain instance. |
| InstanceFiles.InstanceNamesMatchResultFiles | src/main/Main.java:104-105 | On a well-named listing, the run names and the read files pair up in order, with file = name + `.vrp`. |
| InstanceFiles.ResultFilesDistinct | src/main/ResultStats.java:70-71 | Skipping optimum files keeps a distinct listing distinct. |
| InstanceFiles.InstanceNamesWellFormed | src/main/Main.java:104-105 | On a well-formed listing, the run names are distinct and `/`-free. |
| InstanceFiles.ResultFileOfReordered | src/main/ResultStats.java:64-71 | Every file read from a reordered listing is a plain instance file whose name the driver runs. |
| InstanceFiles.ResultFilesPermutation | src/main/ResultStats.java:64-71 | Reordering the listing reorders the files read and changes nothing else. |
| InstanceOrder.NField | src/main/ResultStats.java:49-53 | A name without `-` throws `ArrayIndexOutOfBoundsException`. Any failure is that or `NumberFormatException`, and a parsed field is an `int`. |
| InstanceOrder.KField | src/main/ResultStats.java:49-56 | A name without `-` throws `ArrayIndexOutOfBoundsException`. Any failure is that or `NumberFormatException`, and a parsed field is an `int`. |
| InstanceOrder.KeyOf | src/main/ResultStats.java:49-56 | The key exists exactly when both fields parse. A bad `n` field's exception comes first, and every failure is one of the two exceptions above. |
| InstanceOrder.Compare | src/main/ResultStats.java:48-61 | The comparator returns a result exactly when both names have a key. The result is in `-1..1`, negative exactly when `(n1, k1)` is lexicographically below `(n2, k2)`, and zero exactly when the keys are equal. |
| InstanceOrder.CompareAntisymmetric | src/main/ResultStats.java:58-60 | Swapping the arguments negates the result. |
| InstanceOrder.CompareTransitive | src/main/ResultStats.java:58-60 | "Not after" is transitive. |
| InstanceOrder.SplitInstanceFileName | src/main/ResultStats.java:49 | `A-n32-k5.vrp` splits on `-` into its prefix, `n` field and `k` field. |
| InstanceOrder.StripLetter | src/main/ResultStats.java:52 | Removing the field's letter and trimming leaves its digits. |
| InstanceOrder.NFieldOfInstanceFileName | src/main/ResultStats.java:52-53 | The `n` field of a built name parses to `n`. |
| InstanceOrder.FirstDotPiece | src/main/ResultStats.java:55 | `split("\\.")[0]` is the part before the extension. |
| InstanceOrder.KFieldOfInstanceFileName | src/main/ResultStats.java:55-56 | The `k` field of a built name parses to `k`, whatever its extension. |
| InstanceOrder.KeyOfInstanceFileName | src/main/ResultStats.java:49-56 | A name built from `n` and `k` has the key `(n, k)`. |
| InstanceOrder.CompareInstanceFileNames | src/sa/ResultStats.java:26-39 | Two instance files compare by `n` first and by `k` on a tie. Equal `(n, k)` compare as 0. |
| InstanceOrder.Insert | src/main/ResultStats.java:64 | Insertion adds exactly the inserted entry. |
| InstanceOrder.InsertSorted | src/main/ResultStats.java:64 | Inserting into an ordered sequence keeps it ordered. |
| InstanceOrder.SortEntries | src/main/ResultStats.java:64 | Sorting keeps the entries, each as often as before. |
| InstanceOrder.SortEntriesSorted | src/main/ResultStats.java:64 | The sort orders the entries by key. |
| InstanceOrder.NamesOfSortEntries | src/main/ResultStats.java:64 | Sorting keeps the file names, each as often as before. |
| InstanceOrder.KeyedSpec | src/main/ResultStats.java:48-56 | Keying succeeds exactly when every file has a key, and then pairs each file with it. |
| InstanceOrder.SortedNames | src/sa/ResultStats.java:42 | Entries ordered by key have names ordered by the comparator. |
| InstanceOrder.SortInstances | src/main/ResultStats.java:64 | A listing of fewer than two files is returned unchanged. Otherwise sorting succeeds exactly when every file has a key. The result is a permutation of the listing, ordered by the comparator. |
| MainDriver.InitialSolution | src/main/Main.java:165-176 | The driver's copy builds `dimension-1` routes (none when `dimension <= 1`), route `k` being `[k+1]`. |
| MainDriver.Sweep | src/main/Main.java:79-95 | The sweep makes 60 calls for POP_VND and 30 for VND. `SweepCount` gives the multiplicity of every setting. |
| MainDriver.PopulationLoopCount | src/main/Main.java:85-88 | The population loop runs each size from `MIN_POPULATION_SIZE` to `MAX_POPULATION_SIZE` once, and nothing else. |
| MainDriver.RepetitionCount | src/main/Main.java:84-92 | One repetition runs each scheduled setting of its shuffle option and type once. |
| MainDriver.RepetitionLoopCount | src/main/Main.java:83-93 | The repetition loop runs each such setting `REPETITION_COUNT` times. |
| MainDriver.TypeLoopCount | src/main/Main.java:81-94 | The type loop, over types listed at most once, runs each setting of its type `REPETITION_COUNT` times. |
| MainDriver.TypeOptionsOnce | src/main/Main.java:60 | `Type.values()` lists every type once. |
| MainDriver.ShuffleOptionsOnce | src/main/Main.java:59 | `{false, true}` lists either value once. |
| MainDriver.ShuffleLoopCount | src/main/Main.java:79-95 | The shuffle loop, over options listed at most once, runs each of its settings `REPETITION_COUNT` times. |
| MainDriver.SweepCount | src/main/Main.java:79-95 | `main` calls `runAllInstances` `REPETITION_COUNT` times for each scheduled setting (any shuffle option and type; population size 2 to 3 for POP_VND), and never otherwise. |
| MainDriver.TypeLoopLength | src/main/Main.java:81-94 | Each type makes 10 POP_VND calls or 5 VND calls. |
| MainDriver.SweepLength | src/main/Main.java:79-95 | The sweep makes 60 calls for POP_VND and 30 for VND. |
| MainDriver.OutputPath | src/main/Main.java:144-153 | The result file is named `name.txt`. `OutputPathIsDirPath` and `OutputPathPieces` give its directories. |
| MainDriver.OutputPathIsDirPath | src/main/Main.java:145-154 | The path built step by step is the setting's directories, each followed by `/`, then `name.txt`. The population size and thread segments appear only for POP_VND. |
| MainDriver.OutputDirsSlashFree | src/main/Main.java:145-153 | No directory name of a setting holds a `/`. |
| MainDriver.OutputDirsInjective | src/main/Main.java:145-153 | Two settings have the same directories exactly when they agree on the path parameters. |
| MainDriver.OutputPathPieces | src/main/Main.java:145-154 | Split on `/`, a result path gives the setting's directories and `name.txt`: 7 pieces for POP_VND, 5 for VND. |
| MainDriver.OutputPathInjective | src/main/Main.java:145-154 | Two runs append to the same file exactly when they agree on the path parameters and the name. |
| MainDriver.RunAllInstances | src/main/Main.java:103-108 | One call appends once per name, in order, each to that name's result file. |
| MainDriver.RunAllInstancesAvoids | src/main/Main.java:103-108 | A call appends to no file of a setting with different path parameters. |
| MainDriver.RunAllInstancesLines | src/main/Main.java:103-108 | Over distinct names, a file receives its name's record line exactly when the call's setting matches and the name is run, and nothing otherwise. |
| MainDriver.SweepLines | src/main/Main.java:79-108 | A run name's file receives one record line per call of a matching setting, in call order. |
| MainDriver.SweepAvoids | src/main/Main.java:79-108 | A file whose path parameters no call of the sweep shares receives nothing. |
| MainDriver.SweepScheduled | src/main/Main.java:79-95 | Every call of the sweep has a scheduled setting. |
| MainDriver.ScheduledSamePath | src/main/Main.java:79-95 | Between scheduled settings, sharing the path parameters means being equal. |
| MainDriver.RecordsOfCount | src/main/Main.java:79-108 | Among scheduled settings, a file collects as many records as its setting has calls. |
| MainDriver.SweepPopulationSizes | src/main/Main.java:84-88 | Only population sizes 2 to 3 share the path parameters of a POP_VND call of the sweep. |
| MainDriver.RecordsOfWritable | src/main/Main.java:160 | When every run's record is writable, so is every record a file collects. |
| MainDriver.SweepRecordCount | src/main/Main.java:79-108 | Each scheduled setting leaves `REPETITION_COUNT` records per instance. |
| MainDriver.SweepFileReadsBack | src/main/Main.java:79-161 | Starting from an empty directory, a scheduled setting's result file reads back as that setting's records, in call order. |
| MainDriver.SweepFileMissing | src/main/Main.java:79-161 | Starting from an empty directory, a file whose setting the sweep never runs does not exist. |
| MainStats.SettingsSpec | src/main/ResultStats.java:33-44 | For POP_VND, `main` reads 14 settings with population sizes 2 to 15 in order. For VND it reads a single setting. |
| MainStats.ReaderPath | src/main/ResultStats.java:73-82 | The reader opens a file under `output/` named after the listed file with `.vrp` replaced by `.txt`. |
| MainStats.Main | src/main/ResultStats.java:33-44 | A comparator exception ends `main` at the first setting. On success there is one result per setting read. |
| MainStats.ReaderPathIsDirPath | src/main/ResultStats.java:73-82 | The reader builds the same directories as the driver. |
| MainStats.ReaderPathOfPlainFile | src/main/ResultStats.java:73-82 | For a plain instance file, the reader path is the driver's output path for the instance's name under the same setting. |
| MainStats.ReaderFilesAreWriterFiles | src/main/ResultStats.java:64-82 | On a well-formed listing, the sorted reader opens exactly the files one `runAllInstances` call of the setting appends to, each once. |
| MainStats.RunInstanceReads | src/main/ResultStats.java:64-116 | One setting succeeds exactly when every file, in sorted order, reads as a non-empty series, and then yields those series. |
| MainStats.RunInstanceFirstFailure | src/main/ResultStats.java:67-88 | When the first file does not read, the setting throws that file's exception. |
| MainStats.SortedResultFiles | src/main/ResultStats.java:64-71 | Sorting keeps the number of files read. |
| MainStats.UnwrittenFileMissing | src/main/ResultStats.java:73-88 | On the driver's output, under a setting the sweep never runs, every file read is missing. |
| MainStats.UnwrittenSettingFails | src/main/ResultStats.java:38-40 | Under a POP_VND size the driver does not run, the setting throws `NoSuchFileException`, unless sorting threw first. |
| MainStats.MainFailsOnDriverOutput | src/main/ResultStats.java:24-25 | As configured, the statistics program fails on the output of the driver as configured, whenever `data/` holds an instance. |
| MainStats.MainOnDriverOutput | src/main/ResultStats.java:36-43 | When every run's record is printable, the statistics program fails on the driver's output with exactly `NoSuchFileException`, at size 4, or with the comparator's exception when sorting throws. |
| MainStats.DriverSizesReadBack | src/main/ResultStats.java:36-43 | On the driver's output the steps for sizes 2 and 3 succeed and the step for size 4 throws `NoSuchFileException`. |
| MainStats.WrittenFileReadsBack | src/main/ResultStats.java:73-98 | Under a scheduled setting, each file read holds the setting's records of its instance: `REPETITION_COUNT` of them. |
| MainStats.WrittenFilesReadBack | src/main/ResultStats.java:67-98 | The same holds for every file read, in sorted order. |
| MainStats.WrittenSettingReadsBack | src/main/ResultStats.java:64-116 | Under a scheduled setting, `runInstance` succeeds on the driver's output. It reads, per instance in sorted order, the five records of that setting's runs. |
| MainStats.VndMainReadsBack | src/main/ResultStats.java:34-35 | Configured for VND, the statistics program completes on the output of the VND driver. |
| SaDriver.OutputPath | src/sa/PVND_SA_Main.java:70 | The result file sits under `output/sa/` and is named `name.txt`. |
| SaDriver.OutputPathIsDirPath | src/sa/PVND_SA_Main.java:70 | The annealing result files sit in `output/sa/`. |
| SaDriver.OutputPathPieces | src/sa/PVND_SA_Main.java:70 | Split on `/`, the path of a `/`-free name has exactly the three pieces `output`, `sa`, `name.txt`. |
| SaDriver.OutputPathInjective | src/sa/PVND_SA_Main.java:70 | Different names get different result files. |
| SaDriver.OutputPathSeparate | src/sa/PVND_SA_Main.java:70 | The annealing driver never appends to a result file of the POP_VND/VND driver. |
| SaDriver.Pass | src/sa/PVND_SA_Main.java:38-41 | One pass appends once per name, in order, to that name's file. |
| SaDriver.PassLines | src/sa/PVND_SA_Main.java:38-41 | Over distinct names, a pass appends a run name's record line to its file and nothing to any other file. |
| SaDriver.Outcomes | src/sa/PVND_SA_Main.java:37 | A name collects one record per pass, in pass order. |
| SaDriver.PassesLines | src/sa/PVND_SA_Main.java:37-42 | A run name's file receives one record line per pass, in pass order. |
| SaDriver.PassesAvoid | src/sa/PVND_SA_Main.java:37-42 | A name that is not run gets no append. |
| SaDriver.MainFileReadsBack | src/sa/PVND_SA_Main.java:36-77 | Starting from an empty directory, a run name's file reads back as its record of every pass. |
| SaDriver.MainFileMissing | src/sa/PVND_SA_Main.java:36-77 | Starting from an empty directory, a name that is not run has no file. |
| SaStats.ReaderPath | src/sa/ResultStats.java:51 | The reader opens a file under `output/sa/` named after the listed file with `.vrp` replaced by `.txt`. |
| SaStats.Main | src/sa/ResultStats.java:42-57 | A comparator exception is the program's result. On success there is one series per file read. |
| SaStats.ReaderPathOfPlainFile | src/sa/ResultStats.java:51 | For a plain instance file, the reader path is the driver's output path for the instance's name. |
| SaStats.DoubleMatchName | src/sa/PVND_SA_Main.java:38 | For `avrp.vrp` the regular expression matches twice, so the driver's name is empty. |
| SaStats.DoubleMatchReaderPath | src/sa/ResultStats.java:51 | The literal `replace` changes only the extension of `avrp.vrp`. |
| SaStats.ReaderPathNeedsPlainFile | src/sa/ResultStats.java:51 | Without the naming precondition the round trip fails: reader and writer disagree for `avrp.vrp`. |
| SaStats.ReaderFilesAreWriterFiles | src/sa/ResultStats.java:42-51 | On a well-formed listing, the sorted reader opens exactly the files a pass of the driver appends to, each once. |
| SaStats.MainReads | src/sa/ResultStats.java:42-79 | The program succeeds exactly when every file, in sorted order, reads as a non-empty series, and then yields those series. |
| SaStats.MainFailsWithoutOutput | src/sa/ResultStats.java:57 | Run on an empty `output/`, the program throws `NoSuchFileException` when there is an instance, unless sorting threw first. |
| SaStats.WrittenFileReadsBack | src/sa/ResultStats.java:51-67 | Each file read holds its instance's record of every pass of the driver. |
| SaStats.MainReadsBack | src/sa/ResultStats.java:42-79 | On the driver's output the program succeeds. It reads, per instance in sorted order, the single record of its single run. |

## Left out

- The search engines and everything behind the unseen packages (`heuristic.*`, `optimization.*`): VND, IS-VND, simulated annealing, the neighbourhood operators, route length and demand. Their source is not part of this model. The record a run produces is a parameter (`outcome`) of the driver models.
- Route objects: a route is its sequence of customers. The distance and demand tables the route constructor receives are not modelled.
- The mean, standard deviation and 3-sigma trimmed average of the statistics programs are not modelled. They are floating-point numerics with `Math.sqrt`, and `Double.parseDouble` of the fields is not modelled either. Only the exception on a file without records is kept. Record fields are opaque comma-free strings, and `Double.toString` formatting is not modelled.
- Printing, `presentSolution`, `System.nanoTime` timing, `mkdirs`, and the executor service with its thread count. These are I/O and concurrency.
- The `data/` listing is a parameter. `Files.list` order is unspecified, and each repetition is assumed to see the same listing.
- Only the `SAVE_RESULT = true` branch of both drivers is modelled.
- Errors the runs themselves may throw (a missing or unreadable instance file) are not modelled.
- `Type.values()` is assumed to be `BEST, FIRST, RANDOM`, and enum `toString` is assumed to be the constant's name. `Type` and `Algorithm` are not part of this model.
- `removeEmptyRoutes` (`Main.java` line 227, `PVND_SA_Main.java` line 56) is left out: it is engine code.
- `JavaStrings.Lower` lowers only ASCII letters; locale-dependent and non-ASCII case mapping is not modelled.
- `JavaIntegers.ParseInt` accepts ASCII digits only; Unicode digits that Java's `Character.digit` accepts are not modelled.
- `InstanceOrder.SortInstances`: proved ordered by the comparator and a permutation of the listing. Its stability (equal keys keep their listing order, as `List.sort` guarantees) is not stated. When some name has no key, the model reports the first such name in listing order. The library sort compares in its own order (TimSort starts with `compare(a[1], a[0])`), so it may reach a different badly named file first. So neither the file that causes the exception nor, when badly named files fail in different ways, the kind of exception is matched.
- `Records.ParseLine`: `Double.parseDouble(split[0])` runs before `split[1]` is read and is not modelled. A line whose first field is not a number throws `NumberFormatException` in the source. The model instead reports `ArrayIndexOutOfBoundsException` for a one-field line and accepts a two-field line. Both agree on lines of printed numbers, the only lines the drivers write.
- `Acceptance.AcceptsExactlyShorter`: lengths are exact reals; `double` rounding and NaN are not modelled.
- `MainDriver.SweepFileReadsBack` and `SaDriver.MainFileReadsBack`: both assume every outcome is writable (non-empty, comma- and newline-free fields), as `Double.toString` output is.
