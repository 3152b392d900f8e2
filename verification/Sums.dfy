/** Sums of integer sequences, and what one changed entry does to them. */
module Sums {

  function Sum(s: seq<int>): int {
    if s == [] then 0 else Sum(s[..|s| - 1]) + s[|s| - 1]
  }

  lemma {:induction false} SumUpdate(s: seq<int>, i: nat, v: int)
    requires i < |s|
    ensures Sum(s[i := v]) == Sum(s) - s[i] + v
  {
    var n := |s| - 1;
    if i == n {
      assert s[i := v][..n] == s[..n];
    } else {
      assert s[i := v][..n] == s[..n][i := v];
      SumUpdate(s[..n], i, v);
    }
  }

  lemma {:induction false} SumSnoc(s: seq<int>, v: int)
    ensures Sum(s + [v]) == Sum(s) + v
  {
    assert (s + [v])[..|s|] == s;
  }

  lemma {:induction false} SumZero(s: seq<int>)
    requires forall i :: 0 <= i < |s| ==> s[i] == 0
    ensures Sum(s) == 0
  {
    if s != [] {
      SumZero(s[..|s| - 1]);
    }
  }

  lemma {:induction false} SumNonNegative(s: seq<int>, i: nat)
    requires forall j :: 0 <= j < |s| ==> s[j] >= 0
    requires i < |s|
    ensures Sum(s) >= s[i]
  {
    var n := |s| - 1;
    if i < n {
      SumNonNegative(s[..n], i);
    } else if n > 0 {
      SumNonNegative(s[..n], 0);
    }
  }
}
