/**
 * std::sort over indices: some order in which nothing compares above what follows. The order
 * of elements that compare equal is not promised, so the contract does not fix it.
 */
module StdSort {

  predicate IsPermutation(perm: seq<nat>, n: nat) {
    && |perm| == n
    && (forall i :: 0 <= i < n ==> perm[i] < n)
    && (forall i, j :: 0 <= i < j < n ==> perm[i] != perm[j])
  }

  /** `less` is a strict weak order on the first `n` indices. */
  ghost predicate StrictWeakOrder(less: (nat, nat) -> bool, n: nat) {
    && (forall a, b :: 0 <= a < n && 0 <= b < n ==> !(less(a, b) && less(b, a)))
    && (forall a, b, c :: 0 <= a < n && 0 <= b < n && 0 <= c < n && !less(a, b) && !less(b, c) ==> !less(a, c))
  }

  ghost predicate SortedBy(less: (nat, nat) -> bool, perm: seq<nat>) {
    forall i, j :: 0 <= i < j < |perm| ==> !less(perm[j], perm[i])
  }

  method Sort(less: (nat, nat) -> bool, n: nat) returns (perm: seq<nat>)
    requires StrictWeakOrder(less, n)
    ensures IsPermutation(perm, n) && SortedBy(less, perm)
  {
    perm := [];
    for k := 0 to n
      invariant IsPermutation(perm, k) && SortedBy(less, perm)
    {
      var i := k;
      while i > 0 && less(k, perm[i - 1])
        invariant 0 <= i <= k
        invariant forall j :: i <= j < k ==> less(k, perm[j])
        decreases i
      {
        i := i - 1;
      }
      InsertKeepsSorted(less, perm, i, n);
      perm := Inserted(perm, i);
    }
  }

  function Inserted(perm: seq<nat>, i: nat): seq<nat>
    requires i <= |perm|
  {
    seq(|perm| + 1, j requires 0 <= j <= |perm| => if j < i then perm[j] else if j == i then |perm| else perm[j - 1])
  }

  /** A new index behind the first one that it does not come before, and before all that it does. */
  lemma InsertKeepsSorted(less: (nat, nat) -> bool, perm: seq<nat>, i: nat, n: nat)
    requires StrictWeakOrder(less, n) && |perm| < n && i <= |perm|
    requires IsPermutation(perm, |perm|) && SortedBy(less, perm)
    requires forall j :: i <= j < |perm| ==> less(|perm|, perm[j])
    requires i > 0 ==> !less(|perm|, perm[i - 1])
    ensures IsPermutation(Inserted(perm, i), |perm| + 1) && SortedBy(less, Inserted(perm, i))
  {
    var (k, now) := (|perm|, Inserted(perm, i));
    forall a, b | 0 <= a < b < |now| ensures !less(now[b], now[a]) {
      if b == i {
        assert !less(k, perm[i - 1]) && !less(perm[i - 1], perm[a]);
      } else if a == i {
        assert less(k, perm[b - 1]);
      }
    }
  }

  /** The elements in the order of a permutation. */
  function Permuted<T>(s: seq<T>, perm: seq<nat>): seq<T>
    requires IsPermutation(perm, |s|)
  {
    seq(|s|, i requires 0 <= i < |s| => s[perm[i]])
  }

  /** A permutation reaches every index. */
  lemma PermutationReaches(perm: seq<nat>, n: nat, x: nat)
    requires IsPermutation(perm, n) && x < n
    ensures exists i :: 0 <= i < n && perm[i] == x
  {
    if forall i :: 0 <= i < n ==> perm[i] != x {
      Pigeonhole(seq(n, i requires 0 <= i < n => if perm[i] < x then perm[i] else perm[i] - 1), n - 1);
    }
  }

  lemma {:induction false} Pigeonhole(s: seq<int>, m: nat)
    requires forall i :: 0 <= i < |s| ==> 0 <= s[i] < m
    requires forall i, j :: 0 <= i < j < |s| ==> s[i] != s[j]
    ensures |s| <= m
  {
    if s != [] {
      assert 0 <= s[0] < m;
      if k :| 0 <= k < |s| && s[k] == m - 1 {
        var t := s[..k] + s[k + 1..];
        assert forall i :: 0 <= i < |t| ==> t[i] == if i < k then s[i] else s[i + 1];
        Pigeonhole(t, m - 1);
      } else {
        Pigeonhole(s, m - 1);
      }
    }
  }
}
