/** `StartSolution.getInitialSolution`: the solution every engine starts
    from. */
module StartSolution {
  import opened Solutions

  /** Loops `i` over `1 .. dimension-1`, appending the route `[i]` each
      time; `dimension` counts the depot. */
  method InitialSolution(dimension: int) returns (solution: Solution)
    ensures |solution| == if dimension <= 1 then 0 else dimension - 1
    ensures forall k :: 0 <= k < |solution| ==> solution[k] == [k + 1]
    ensures forall k, j :: 0 <= k < j < |solution| ==> solution[k][0] < solution[j][0]
    ensures solution == Singletons(dimension)
    ensures IsPartition(solution, dimension)
  {
    solution := [];
    var i := 1;
    while i < dimension
      invariant 1 <= i && (i <= dimension || i == 1)
      invariant |solution| == i - 1
      invariant forall k :: 0 <= k < |solution| ==> solution[k] == [k + 1]
    {
      solution := solution + [[i]];
      i := i + 1;
    }
    assert solution == Singletons(dimension);
    SingletonsArePartition(dimension);
  }
}
