/** Sizes of finite sets. */
module FiniteSets {
  lemma SubsetIsSmaller<T>(a: set<T>, b: set<T>)
    requires a <= b
    ensures |a| <= |b|
  {
    assert b == a + (b - a);
  }

  lemma {:induction false} BoundedSet(a: set<int>, n: nat)
    requires forall x :: x in a ==> 0 <= x < n
    ensures |a| <= n
  {
    if n == 0 {
      forall x ensures x !in a {
      }
      assert a == {};
    } else {
      BoundedSet(a - {n - 1}, n - 1);
    }
  }
}
