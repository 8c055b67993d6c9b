/** The run parameters shared by the experiment driver and the statistics
    program, and the strategy classes each search type selects. */
module Experiment {
  import opened JavaStrings
  import opened JavaIntegers

  /** `Algorithm`: which engine a run uses. */
  datatype Algorithm = POP_VND | VND

  /** `Type`: best-, first- or random-improving variants of the strategies. */
  datatype SearchType = BEST | FIRST | RANDOM

  /** The static fields `ALGORITHM`, `POPULATION_SIZE`,
      `SHUFFLE_NEIGHBORHOODS`, `TYPE` and `THREAD_COUNT` during one call of
      `runAllInstances`. */
  datatype RunConfig = RunConfig(
    algorithm: Algorithm,
    populationSize: int,
    shuffle: bool,
    searchType: SearchType,
    threadCount: int)

  /** `Enum.toString()`: the constant's name. */
  function AlgorithmName(a: Algorithm): string {
    match a
    case POP_VND => "POP_VND"
    case VND => "VND"
  }

  function TypeName(t: SearchType): string {
    match t
    case BEST => "BEST"
    case FIRST => "FIRST"
    case RANDOM => "RANDOM"
  }

  /** `String.valueOf(b)` */
  function BoolToString(b: bool): string {
    if b then "true" else "false"
  }

  /** The directory name of an algorithm, `ALGORITHM.toString().toLowerCase()`. */
  function AlgorithmDir(a: Algorithm): (r: string)
    ensures '/' !in r
    ensures a == POP_VND ==> |r| == 7
    ensures a == VND ==> |r| == 3
  {
    var name := AlgorithmName(a);
    assert '/' !in name;
    Lower(name)
  }

  /** Two runs write the same result file exactly when they agree on every
      parameter that appears in its path: the population size and thread
      count only matter for POP_VND. */
  predicate SamePathParameters(c1: RunConfig, c2: RunConfig) {
    && c1.algorithm == c2.algorithm
    && c1.shuffle == c2.shuffle
    && c1.searchType == c2.searchType
    && (c1.algorithm == POP_VND ==>
          c1.populationSize == c2.populationSize && c1.threadCount == c2.threadCount)
  }

  /** The neighbour selection of the VND engine (`INeighborSelection`). */
  datatype NeighborSelection =
    SelectBestImprovingNeighbor | SelectFirstImprovingNeighbor | SelectRandomImprovingNeighbor

  /** The population selection of the IS-VND engine (`IPopulationSelection_V2`). */
  datatype PopulationSelection = BestMSelection | FirstMSelection | RandomMSelection

  /** The population maintenance of the IS-VND engine (`NeighborhoodMaintenance`). */
  datatype Maintenance = BestMMaintenance | FirstMMaintenance | RandomMMaintenance

  /** The `switch (TYPE)` of `optimizeVND`. */
  function SelectionFor(t: SearchType): NeighborSelection {
    match t
    case BEST => SelectBestImprovingNeighbor
    case FIRST => SelectFirstImprovingNeighbor
    case RANDOM => SelectRandomImprovingNeighbor
  }

  /** The first `switch (TYPE)` of `optimizeISVND`. */
  function PopulationSelectionFor(t: SearchType): PopulationSelection {
    match t
    case BEST => BestMSelection
    case FIRST => FirstMSelection
    case RANDOM => RandomMSelection
  }

  /** The second `switch (TYPE)` of `optimizeISVND`. */
  function MaintenanceFor(t: SearchType): Maintenance {
    match t
    case BEST => BestMMaintenance
    case FIRST => FirstMMaintenance
    case RANDOM => RandomMMaintenance
  }

  /** Which of best, first or random a neighbour selection is. */
  function SelectionKind(s: NeighborSelection): SearchType {
    match s
    case SelectBestImprovingNeighbor => BEST
    case SelectFirstImprovingNeighbor => FIRST
    case SelectRandomImprovingNeighbor => RANDOM
  }

  function PopulationSelectionKind(s: PopulationSelection): SearchType {
    match s
    case BestMSelection => BEST
    case FirstMSelection => FIRST
    case RandomMSelection => RANDOM
  }

  function MaintenanceKind(m: Maintenance): SearchType {
    match m
    case BestMMaintenance => BEST
    case FirstMMaintenance => FIRST
    case RandomMMaintenance => RANDOM
  }

  /** Every search type selects strategies of its own kind, in all three
      switches, and each switch is a one-to-one correspondence: every
      strategy class is selected by exactly one type, so no switch falls
      through to its `default` (which would leave the strategy `null`). */
  lemma StrategiesMatchType(t: SearchType, s: NeighborSelection, p: PopulationSelection, m: Maintenance)
    ensures SelectionKind(SelectionFor(t)) == t
    ensures PopulationSelectionKind(PopulationSelectionFor(t)) == t
    ensures MaintenanceKind(MaintenanceFor(t)) == t
    ensures SelectionFor(SelectionKind(s)) == s
    ensures PopulationSelectionFor(PopulationSelectionKind(p)) == p
    ensures MaintenanceFor(MaintenanceKind(m)) == m
  {
  }

  /** The literals that make up a path segment are told apart by their text. */
  lemma NamesInjective(a1: Algorithm, a2: Algorithm, t1: SearchType, t2: SearchType, b1: bool, b2: bool)
    ensures AlgorithmDir(a1) == AlgorithmDir(a2) ==> a1 == a2
    ensures TypeName(t1) == TypeName(t2) ==> t1 == t2
    ensures BoolToString(b1) == BoolToString(b2) ==> b1 == b2
  {
  }
}
