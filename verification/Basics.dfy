/** What every part of the model uses: optional values, and counting. */
module Basics {

  datatype Option<+T> = None | Some(value: T)

  lemma {:induction false} SubsetSize<T>(a: set<T>, b: set<T>)
    requires a <= b
    ensures |a| <= |b|
  {
    if a != {} {
      var x :| x in a;
      SubsetSize(a - {x}, b - {x});
    }
  }

  lemma SubsetOfSameSize<T>(a: set<T>, b: set<T>)
    requires a <= b && |a| == |b|
    ensures a == b
  {
    if x :| x in b && x !in a {
      SubsetSize(a, b - {x});
    }
  }

  lemma WithoutOne<T>(all: seq<T>, i: nat)
    requires i < |all|
    ensures multiset(all[..i] + all[i + 1..]) == multiset(all) - multiset{all[i]}
    ensures |all[..i] + all[i + 1..]| == |all| - 1
  {
    assert all == all[..i] + [all[i]] + all[i + 1..];
  }
}
