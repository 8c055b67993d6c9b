/** Routes and solutions of a CVRP instance, reduced to what the drivers
    touch: which customer a route visits, in which order. Node 0 is the
    depot; it is implicit at both ends of every route and never listed. */
module Solutions {

  /** Customer indices in visiting order (`ImplicitLoopDemandRoute`). */
  type Route = seq<nat>

  /** Routes in order (`DemandRoutesSolution`). */
  type Solution = seq<Route>

  /** How many times the routes of `s` visit customer `c`. */
  function Occurrences(s: Solution, c: nat): nat
  {
    if |s| == 0 then 0 else Occurrences(s[..|s| - 1], c) + multiset(s[|s| - 1])[c]
  }

  /** The routes visit every customer `1 .. dimension-1` exactly once and
      visit nothing else, the depot `0` included. */
  ghost predicate IsPartition(s: Solution, dimension: int) {
    forall c: nat {:trigger Occurrences(s, c)} ::
      Occurrences(s, c) == if 1 <= c < dimension then 1 else 0
  }

  /** One route per customer, customer `k+1` alone on route `k`: the start
      solution of every engine. */
  function Singletons(dimension: int): (s: Solution)
  {
    seq(if dimension <= 1 then 0 else dimension - 1, (k: nat) => [k + 1])
  }

  lemma {:induction false} SingletonsOccurrences(dimension: int, c: nat)
    ensures Occurrences(Singletons(dimension), c) == if 1 <= c < dimension then 1 else 0
    decreases dimension
  {
    if dimension > 1 {
      var s := Singletons(dimension);
      assert s[..|s| - 1] == Singletons(dimension - 1);
      assert s[|s| - 1] == [dimension - 1];
      SingletonsOccurrences(dimension - 1, c);
    }
  }

  /** The start solution is a partition of the customers. */
  lemma SingletonsArePartition(dimension: int)
    ensures IsPartition(Singletons(dimension), dimension)
  {
    forall c: nat
      ensures Occurrences(Singletons(dimension), c) == if 1 <= c < dimension then 1 else 0
    {
      SingletonsOccurrences(dimension, c);
    }
  }

  lemma {:induction false} OccurrencesAppend(a: Solution, b: Solution, c: nat)
    ensures Occurrences(a + b, c) == Occurrences(a, c) + Occurrences(b, c)
    decreases |b|
  {
    if |b| > 0 {
      var ab := a + b;
      assert ab[..|ab| - 1] == a + b[..|b| - 1];
      assert ab[|ab| - 1] == b[|b| - 1];
      OccurrencesAppend(a, b[..|b| - 1], c);
    } else {
      assert a + b == a;
    }
  }

  lemma OccurrencesOne(r: Route, c: nat)
    ensures Occurrences([r], c) == multiset(r)[c]
  {
    assert [r][..0] == [];
  }

  /** The visits of `s` are those before route `k`, on it, and after it. */
  lemma OccurrencesAround(s: Solution, k: nat, c: nat)
    requires k < |s|
    ensures Occurrences(s, c) == Occurrences(s[..k], c) + multiset(s[k])[c] + Occurrences(s[k + 1..], c)
  {
    assert s == s[..k] + [s[k]] + s[k + 1..];
    OccurrencesAppend(s[..k] + [s[k]], s[k + 1..], c);
    OccurrencesAppend(s[..k], [s[k]], c);
    OccurrencesOne(s[k], c);
  }

  /** In a partition, a customer on route `k` is a real customer (not the
      depot, not past the last node), is on route `k` once, and is on no
      other route. */
  lemma PartitionMembership(s: Solution, dimension: int, k: nat, c: nat)
    requires IsPartition(s, dimension)
    requires k < |s| && c in s[k]
    ensures 1 <= c < dimension
    ensures multiset(s[k])[c] == 1
    ensures forall other :: 0 <= other < |s| && other != k ==> c !in s[other]
  {
    OccurrencesAround(s, k, c);
    assert Occurrences(s, c) == if 1 <= c < dimension then 1 else 0;
    forall other | 0 <= other < |s| && other != k
      ensures c !in s[other]
    {
      var lo, hi := if other < k then other else k, if other < k then k else other;
      OccurrencesAround(s, hi, c);
      OccurrencesAround(s[..hi], lo, c);
      assert s[..hi][lo] == s[lo];
    }
  }
}
