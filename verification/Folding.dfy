/** What the arguments about runs and about many threads share: induction over the states of a run,
    and the sum of what the threads hold. */
module Folding {

  /** The step after `j` keeps it. */
  predicate Keeps(holds: nat -> bool, j: nat) {
    holds(j) ==> holds(j + 1)
  }

  /** What holds at first and from each step to the next, holds after `k` steps. */
  lemma {:induction false} Chain(holds: nat -> bool, k: nat)
    requires holds(0) && forall j: nat :: j < k ==> Keeps(holds, j)
    ensures holds(k)
  {
    if k > 0 {
      Chain(holds, k - 1);
      assert Keeps(holds, k - 1);
    }
  }

  /** All that the threads `s` hold, when each holds `part` of it. */
  function SumOf<T, U(==)>(part: T -> multiset<U>, s: seq<T>): multiset<U> {
    if s == [] then multiset{} else part(s[0]) + SumOf(part, s[1..])
  }

  lemma SumsMove<U>(a: multiset<U>, b: multiset<U>, c: multiset<U>, d: multiset<U>, e: multiset<U>)
    requires b + c == d + e
    ensures (a + b) + c == (a + d) + e && (c + b) + a == (a + b) + c
  {
    forall t: U ensures ((a + b) + c)[t] == ((a + d) + e)[t] {
      assert (b + c)[t] == (d + e)[t];
    }
  }

  /** One thread moves on. */
  lemma {:induction false} SumUpdate<T, U>(part: T -> multiset<U>, s: seq<T>, i: nat, x: T)
    requires i < |s|
    ensures SumOf(part, s[i := x]) + part(s[i]) == SumOf(part, s) + part(x)
  {
    var after := s[i := x];
    if i == 0 {
      assert after[1..] == s[1..];
      SumsMove(part(x), SumOf(part, s[1..]), part(s[0]), SumOf(part, s[1..]), part(s[0]));
    } else {
      assert after[1..] == s[1..][i - 1 := x] && after[0] == s[0];
      SumUpdate(part, s[1..], i - 1, x);
      SumsMove(part(s[0]), SumOf(part, after[1..]), part(s[i]), SumOf(part, s[1..]), part(x));
    }
  }

  lemma {:induction false} SumOfNothing<T, U>(part: T -> multiset<U>, s: seq<T>)
    requires forall i :: 0 <= i < |s| ==> part(s[i]) == multiset{}
    ensures SumOf(part, s) == multiset{}
  {
    if s != [] {
      SumOfNothing(part, s[1..]);
    }
  }
}
