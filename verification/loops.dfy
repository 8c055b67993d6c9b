/** Counted loops whose body does not depend on the counter, and how often
    a value occurs in what they produce. */
module Loops {

  /** `n` passes of a loop whose body does not depend on its counter. */
  function Repeat<T>(n: nat, body: seq<T>): seq<T> {
    if n == 0 then [] else body + Repeat(n - 1, body)
  }

  /** How often `x` occurs in `s`. */
  function Count<T(==)>(s: seq<T>, x: T): nat {
    if |s| == 0 then 0 else (if s[0] == x then 1 else 0) + Count(s[1..], x)
  }

  lemma {:induction false} CountAppend<T>(a: seq<T>, b: seq<T>, x: T)
    ensures Count(a + b, x) == Count(a, x) + Count(b, x)
  {
    if |a| > 0 {
      CountAppend(a[1..], b, x);
      assert (a + b)[1..] == a[1..] + b;
    } else {
      assert a + b == b;
    }
  }

  /** `Count` is the multiplicity in the multiset of the sequence. */
  lemma {:induction false} CountIsMultiplicity<T>(s: seq<T>, x: T)
    ensures Count(s, x) == multiset(s)[x]
  {
    if |s| > 0 {
      CountIsMultiplicity(s[1..], x);
      assert s == [s[0]] + s[1..];
    }
  }

  /** Repeating a body that holds `x` at most once holds it once per pass. */
  lemma {:induction false} RepeatCount<T>(n: nat, body: seq<T>, c: T)
    requires Count(body, c) <= 1
    ensures Count(Repeat(n, body), c) == if Count(body, c) == 1 then n else 0
  {
    if n > 0 {
      RepeatCount(n - 1, body, c);
      CountAppend(body, Repeat(n - 1, body), c);
    }
  }

  /** `n` passes over a body of one or two elements. */
  lemma {:induction false} RepeatLength<T>(n: nat, body: seq<T>)
    ensures |body| == 1 ==> |Repeat(n, body)| == n
    ensures |body| == 2 ==> |Repeat(n, body)| == 2 * n
  {
    if n > 0 {
      RepeatLength(n - 1, body);
    }
  }

  /** No element occurs twice. */
  predicate Distinct<T(==)>(s: seq<T>) {
    forall i, j :: 0 <= i < j < |s| ==> s[i] != s[j]
  }

  lemma HeadTail<T>(s: seq<T>)
    requires |s| > 0
    ensures [s[0]] + s[1..] == s
  {
  }

  lemma ConcatAssoc<T>(a: seq<T>, b: seq<T>, c: seq<T>)
    ensures a + b + c == a + (b + c)
  {
  }

  lemma DistinctCons<T>(x: T, s: seq<T>)
    requires x !in s && Distinct(s)
    ensures Distinct([x] + s)
  {
    forall i, j | 0 <= i < j < |s| + 1
      ensures ([x] + s)[i] != ([x] + s)[j]
    {
      assert ([x] + s)[j] == s[j - 1];
      if i > 0 {
        assert ([x] + s)[i] == s[i - 1];
      }
    }
  }

  lemma DistinctTail<T>(s: seq<T>)
    requires |s| > 0 && Distinct(s)
    ensures Distinct(s[1..]) && s[0] !in s[1..]
  {
    forall i, j | 0 <= i < j < |s| - 1
      ensures s[1..][i] != s[1..][j]
    {
      assert s[1..][i] == s[i + 1] && s[1..][j] == s[j + 1];
    }
  }
}
