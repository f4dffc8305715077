/** Pairs of positions under permutation. */
module Pairs {

  /** Two elements at different positions of a sequence stand at different
      positions of every permutation of it. */
  lemma PairIn<T>(a: seq<T>, b: seq<T>, i: nat, j: nat) returns (p: nat, q: nat)
    requires multiset(a) == multiset(b)
    requires i < |a| && j < |a| && i != j
    ensures p < |b| && q < |b| && p != q && b[p] == a[i] && b[q] == a[j]
  {
    assert a[i] in multiset(a) && a[j] in multiset(a);
    assert a[i] in b && a[j] in b;
    p :| 0 <= p < |b| && b[p] == a[i];
    if a[i] == a[j] {
      var x := a[i];
      Two(a, i, j);
      Without(b, p);
      var rest := b[..p] + b[p + 1..];
      assert multiset(rest)[x] >= 1;
      assert x in rest;
      var r :| 0 <= r < |rest| && rest[r] == x;
      q := if r < p then r else r + 1;
    } else {
      q :| 0 <= q < |b| && b[q] == a[j];
    }
  }

  lemma Without<T>(b: seq<T>, p: nat)
    requires p < |b|
    ensures multiset(b[..p] + b[p + 1..]) == multiset(b) - multiset{b[p]}
  {
    assert b == b[..p] + [b[p]] + b[p + 1..];
  }

  lemma Two<T>(a: seq<T>, i: nat, j: nat)
    requires i < |a| && j < |a| && i != j && a[i] == a[j]
    ensures multiset(a)[a[i]] >= 2
  {
    var k, l := if i < j then i else j, if i < j then j else i;
    assert a == a[..k] + [a[k]] + a[k + 1..];
    assert a[k + 1..][l - k - 1] == a[l];
    assert a[l] in a[k + 1..];
    assert multiset(a) == multiset(a[..k]) + multiset{a[k]} + multiset(a[k + 1..]);
  }
}
