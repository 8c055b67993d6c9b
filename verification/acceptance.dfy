/** The acceptance predicate the VND driver hands to each neighbourhood:
    a neighbour is accepted when it is strictly shorter than the base. */
module Acceptance {
  import opened Solutions

  /** A solution together with its total route length (`routes.length`). */
  datatype Scored = Scored(routes: Solution, length: real)

  /** `s -> n -> n.length < s.length` */
  function AcceptanceTest(base: Scored): Scored -> bool
  {
    (n: Scored) => n.length < base.length
  }

  /** `n` improves on `s` in the sense of the acceptance test. */
  predicate Improves(n: Scored, s: Scored) {
    AcceptanceTest(s)(n)
  }

  /** The test accepts exactly the strictly shorter neighbours; in
      particular it never accepts a solution as its own neighbour. */
  lemma AcceptsExactlyShorter(s: Scored, n: Scored)
    ensures Improves(n, s) <==> n.length < s.length
    ensures !Improves(s, s)
  {
  }

  /** Improvement is transitive and asymmetric: a strict order. */
  lemma ImprovesIsStrictOrder(a: Scored, b: Scored, c: Scored)
    ensures Improves(a, b) && Improves(b, c) ==> Improves(a, c)
    ensures Improves(a, b) ==> !Improves(b, a)
  {
  }

  /** A sequence of solutions in which each one accepted its successor, as
      the current solution of a VND run evolves. */
  ghost predicate IsAcceptedChain(chain: seq<Scored>) {
    forall i :: 0 <= i < |chain| - 1 ==> Improves(chain[i + 1], chain[i])
  }

  /** Along an accepted chain the length strictly decreases. */
  lemma {:induction false} ChainDecreases(chain: seq<Scored>, i: nat, j: nat)
    requires IsAcceptedChain(chain)
    requires i < j < |chain|
    ensures chain[j].length < chain[i].length
    decreases j - i
  {
    if j > i + 1 {
      ChainDecreases(chain, i + 1, j);
    }
  }

  /** An accepted chain never revisits a solution, so when every element
      comes from a finite candidate set the chain is no longer than that
      set: a descent driven by this test stops. */
  lemma {:induction false} ChainBounded(chain: seq<Scored>, candidates: set<Scored>)
    requires IsAcceptedChain(chain)
    requires forall i :: 0 <= i < |chain| ==> chain[i] in candidates
    ensures |chain| <= |candidates|
    decreases |chain|
  {
    if |chain| > 0 {
      var last := chain[|chain| - 1];
      var prefix := chain[..|chain| - 1];
      forall i | 0 <= i < |prefix|
        ensures prefix[i] != last
      {
        ChainDecreases(chain, i, |chain| - 1);
      }
      assert IsAcceptedChain(prefix);
      ChainBounded(prefix, candidates - {last});
    }
  }
}
