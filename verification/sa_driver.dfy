/** `sa.PVND_SA_Main`: the simulated-annealing driver runs every instance
    of `data/` `REPETITION_COUNT` times and appends one record line per run
    to `output/sa/<name>.txt`. The annealing itself is not modelled: the
    record a run produces is a parameter. */
module SaDriver {
  import opened Wrappers
  import opened JavaStrings
  import opened Experiment
  import opened FilePaths
  import opened Loops
  import opened Records
  import opened ResultStore
  import opened InstanceFiles
  import MainDriver

  const REPETITION_COUNT: nat := 1

  /** `"output/sa/" + name + ".txt"`, the result file of an instance. */
  function OutputPath(name: string): (p: string)
    ensures "output/sa/" <= p && EndsWith(p, name + ".txt")
  {
    "output/sa/" + name + ".txt"
  }

  /** The driver's result files sit in `output/sa/`. */
  lemma OutputPathIsDirPath(name: string)
    ensures OutputPath(name) == DirPath(["output", "sa"]) + (name + ".txt")
  {
    assert DirPath(["output", "sa"]) == "output/" + DirPath(["sa"]);
    assert DirPath(["sa"]) == "sa/" + DirPath([]);
  }

  /** Split on `/`, the path of a name without `/` has three pieces. */
  lemma OutputPathPieces(name: string)
    requires '/' !in name
    ensures Pieces(OutputPath(name), '/') == ["output", "sa", name + ".txt"]
  {
    OutputPathIsDirPath(name);
    assert '/' !in name + ".txt";
    PiecesOfPath(["output", "sa"], name + ".txt");
  }

  /** Different names get different result files. */
  lemma OutputPathInjective(name1: string, name2: string)
    ensures OutputPath(name1) == OutputPath(name2) <==> name1 == name2
  {
    if OutputPath(name1) == OutputPath(name2) {
      var p1, p2 := OutputPath(name1), OutputPath(name2);
      assert |name1| == |name2|;
      assert name1 == p1[10..|p1| - 4] && name2 == p2[10..|p2| - 4];
    }
  }

  /** The annealing driver never appends to a result file of the
      population-based driver: their paths have different numbers of
      directories. */
  lemma OutputPathSeparate(name: string, cfg: RunConfig, other: string)
    requires '/' !in name && '/' !in other
    ensures OutputPath(name) != MainDriver.OutputPath(cfg, other)
  {
    OutputPathPieces(name);
    MainDriver.OutputPathPieces(cfg, other);
  }

  /** One pass of the repetition loop over the names, the run of a name
      producing `outcome(name)`. */
  function Pass(names: seq<string>, outcome: string -> Record): (ws: seq<Write>)
    ensures |ws| == |names|
    ensures forall i :: 0 <= i < |names| ==> ws[i].0 == OutputPath(names[i])
  {
    if |names| == 0 then []
    else [(OutputPath(names[0]), RecordLine(outcome(names[0])))] + Pass(names[1..], outcome)
  }

  /** Over distinct names, a pass appends the record line of a run name to
      that name's file, and nothing to any other file. */
  lemma {:induction false} PassLines(names: seq<string>, outcome: string -> Record, n: string)
    requires Distinct(names)
    ensures LinesTo(Pass(names, outcome), OutputPath(n)) == if n in names then RecordLine(outcome(n)) else []
    decreases |names|
  {
    if |names| > 0 {
      var rest := names[1..];
      assert forall i :: 0 <= i < |rest| ==> rest[i] == names[i + 1];
      PassLines(rest, outcome, n);
      OutputPathInjective(names[0], n);
      assert n in names <==> n == names[0] || n in rest;
      assert names[0] !in rest;
    }
  }

  /** The remaining `count` passes, pass `k` producing `outcome(k, name)`. */
  function Passes(count: nat, names: seq<string>, outcome: (nat, string) -> Record, k: nat): seq<Write> {
    if count == 0 then [] else Pass(names, n => outcome(k, n)) + Passes(count - 1, names, outcome, k + 1)
  }

  /** The records of a name over the remaining `count` passes, in order. */
  function Outcomes(count: nat, n: string, outcome: (nat, string) -> Record, k: nat): (rs: seq<Record>)
    ensures |rs| == count
    ensures forall j :: 0 <= j < count ==> rs[j] == outcome(k + j, n)
  {
    if count == 0 then [] else [outcome(k, n)] + Outcomes(count - 1, n, outcome, k + 1)
  }

  /** The file of a run name receives one record line per pass, in pass
      order. */
  lemma {:induction false} PassesLines(count: nat, names: seq<string>, outcome: (nat, string) -> Record, k: nat, n: string)
    requires Distinct(names) && n in names
    ensures LinesTo(Passes(count, names, outcome, k), OutputPath(n)) == WriteRecords(Outcomes(count, n, outcome, k))
  {
    if count > 0 {
      var here := Pass(names, m => outcome(k, m));
      var rest := Passes(count - 1, names, outcome, k + 1);
      PassesLines(count - 1, names, outcome, k + 1, n);
      PassLines(names, m => outcome(k, m), n);
      LinesToAppend(here, rest, OutputPath(n));
      WriteRecordsCons(outcome(k, n), Outcomes(count - 1, n, outcome, k + 1));
    }
  }

  /** A file whose name is not run receives nothing. */
  lemma {:induction false} PassesAvoid(count: nat, names: seq<string>, outcome: (nat, string) -> Record, k: nat, n: string)
    requires n !in names
    ensures Untouched(Passes(count, names, outcome, k), OutputPath(n))
  {
    if count > 0 {
      var here := Pass(names, m => outcome(k, m));
      PassesAvoid(count - 1, names, outcome, k + 1, n);
      forall i | 0 <= i < |here|
        ensures here[i].0 != OutputPath(n)
      {
        OutputPathInjective(names[i], n);
      }
      UntouchedAppend(here, Passes(count - 1, names, outcome, k + 1), OutputPath(n));
    }
  }

  /** The content of `output/` after `main` ran over a listing, starting
      from an empty directory. */
  function MainOutput(listing: seq<string>, outcome: (nat, string) -> Record): FileSystem {
    AppendAll(map[], Passes(REPETITION_COUNT, InstanceNames(listing), outcome, 0))
  }

  /** Starting from an empty directory, the result file of a run name reads
      back as its record of every pass. */
  lemma MainFileReadsBack(listing: seq<string>, outcome: (nat, string) -> Record, n: string)
    requires Distinct(InstanceNames(listing)) && n in InstanceNames(listing)
    requires forall k: nat, m :: IsWritable(outcome(k, m))
    ensures ReadSeries(MainOutput(listing, outcome), OutputPath(n)) == Success(Outcomes(REPETITION_COUNT, n, outcome, 0))
  {
    var rs := Outcomes(REPETITION_COUNT, n, outcome, 0);
    PassesLines(REPETITION_COUNT, InstanceNames(listing), outcome, 0, n);
    WriteThenRead(map[], Passes(REPETITION_COUNT, InstanceNames(listing), outcome, 0), OutputPath(n), rs);
  }

  /** Starting from an empty directory, no file exists for a name that is
      not run. */
  lemma MainFileMissing(listing: seq<string>, outcome: (nat, string) -> Record, n: string)
    requires n !in InstanceNames(listing)
    ensures OutputPath(n) !in MainOutput(listing, outcome)
  {
    PassesAvoid(REPETITION_COUNT, InstanceNames(listing), outcome, 0, n);
    AppendAllKeys(map[], Passes(REPETITION_COUNT, InstanceNames(listing), outcome, 0), OutputPath(n));
  }
}
