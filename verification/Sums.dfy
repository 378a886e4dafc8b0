/// Sums of sequences of numbers.
module Sums {
  function Sum(sizes: seq<nat>): nat {
    if sizes == [] then 0 else Sum(sizes[..|sizes| - 1]) + sizes[|sizes| - 1]
  }

  lemma {:induction false} SumUpdate(s: seq<nat>, i: nat, v: nat)
    requires i < |s|
    ensures Sum(s[i := v]) == Sum(s) - s[i] + v && s[i] <= Sum(s)
  {
    var n := |s| - 1;
    if i < n {
      SumUpdate(s[..n], i, v);
      assert s[i := v][..n] == s[..n][i := v];
    } else {
      assert s[i := v][..n] == s[..n];
    }
  }

  lemma {:induction false} SumBounded(a: seq<nat>, b: seq<nat>, c: seq<nat>)
    requires |a| == |b| == |c| && forall k :: 0 <= k < |a| ==> a[k] <= b[k] + c[k]
    ensures Sum(a) <= Sum(b) + Sum(c)
  {
    if a != [] {
      var n := |a| - 1;
      assert forall k :: 0 <= k < n ==> a[..n][k] <= b[..n][k] + c[..n][k];
      SumBounded(a[..n], b[..n], c[..n]);
    }
  }

  lemma {:induction false} PrefixAtMostAll(s: seq<nat>, n: nat)
    requires n <= |s|
    ensures Sum(s[..n]) <= Sum(s)
    decreases |s|
  {
    if n < |s| {
      PrefixAtMostAll(s[..|s| - 1], n);
      assert s[..|s| - 1][..n] == s[..n];
    } else {
      assert s[..n] == s;
    }
  }

  lemma {:induction false} SplitSum(s: seq<nat>, n: nat)
    requires n <= |s|
    ensures Sum(s) == Sum(s[..n]) + Sum(s[n..])
    decreases |s|
  {
    if n == |s| {
      assert s[..n] == s && s[n..] == [];
    } else {
      var front := s[..|s| - 1];
      SplitSum(front, n);
      assert front[..n] == s[..n] && s[n..][..|s| - n - 1] == front[n..];
    }
  }
}
