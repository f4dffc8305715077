/** Embeddings, their similarity and the per-enrollment threshold
    (common/encoding.cpp), over the reals. */
module Vectors {
  import Pairs

  const EMB_DIM: nat := 512

  type Embedding = e: seq<real> | |e| == EMB_DIM witness seq(EMB_DIM, _ => 0.0)

  // ------------------------------------------------------------ dot product

  function DotUpto(a: seq<real>, b: seq<real>, n: nat): real
    requires n <= |a| && n <= |b|
    decreases n, a, b
  {
    if n == 0 then 0.0 else DotUpto(a, b, n - 1) + a[n - 1] * b[n - 1]
  }

  function Dot(a: seq<real>, b: seq<real>): real
    requires |a| == |b|
  {
    DotUpto(a, b, |a|)
  }

  /** cosine_sim_normed */
  method CosineSimNormed(a: seq<real>, b: seq<real>, n: nat) returns (s: real)
    requires n <= |a| && n <= |b|
    ensures s == DotUpto(a, b, n)
  {
    s := 0.0;
    var i := 0;
    while i < n
      invariant 0 <= i <= n && s == DotUpto(a, b, i)
    {
      s := s + a[i] * b[i];
      i := i + 1;
    }
  }

  lemma {:induction false} DotSymmetric(a: seq<real>, b: seq<real>, n: nat)
    requires n <= |a| && n <= |b|
    ensures DotUpto(a, b, n) == DotUpto(b, a, n)
    decreases n
  {
    if n > 0 {
      DotSymmetric(a, b, n - 1);
    }
  }

  function Plus(a: seq<real>, b: seq<real>): (c: seq<real>)
    requires |a| == |b|
    ensures |c| == |a|
  {
    seq(|a|, i requires 0 <= i < |a| => a[i] + b[i])
  }

  /** 1 in direction k of n, 0 in all others. */
  function Direction(n: nat, k: nat): (d: seq<real>)
    ensures |d| == n
  {
    seq(n, i => if i == k then 1.0 else 0.0)
  }

  lemma {:induction false} DotPlus(a: seq<real>, b: seq<real>, c: seq<real>, n: nat)
    requires |a| == |b| && n <= |a| && n <= |c|
    ensures DotUpto(Plus(a, b), c, n) == DotUpto(a, c, n) + DotUpto(b, c, n)
    decreases n
  {
    if n > 0 {
      DotPlus(a, b, c, n - 1);
      Distribute(a[n - 1], b[n - 1], c[n - 1]);
    }
  }

  lemma Distribute(x: real, y: real, z: real)
    ensures (x + y) * z == x * z + y * z
  {
  }

  lemma {:induction false} DotTimes(a: seq<real>, b: seq<real>, c: real, n: nat)
    requires n <= |a| && n <= |b|
    ensures DotUpto(Scaled(a, c), b, n) == c * DotUpto(a, b, n)
    decreases n
  {
    if n > 0 {
      DotTimes(a, b, c, n - 1);
      Regroup(a[n - 1], b[n - 1], c, DotUpto(a, b, n - 1));
    }
  }

  lemma Regroup(x: real, y: real, c: real, d: real)
    ensures c * d + (x * c) * y == c * (d + x * y)
  {
  }

  lemma {:induction false} DotDirection(a: seq<real>, k: nat, n: nat)
    requires n <= |a|
    ensures DotUpto(a, Direction(|a|, k), n) == if k < n then a[k] else 0.0
    decreases n
  {
    if n > 0 {
      DotDirection(a, k, n - 1);
    }
  }

  /** The similarity is the inner product: linear, symmetric, and along each
      direction the coordinate. */
  lemma DotIs(a: seq<real>, b: seq<real>, c: seq<real>, f: real, k: nat)
    requires |a| == |b| == |c| && k < |a|
    ensures Dot(Plus(a, b), c) == Dot(a, c) + Dot(b, c)
    ensures Dot(Scaled(a, f), b) == f * Dot(a, b) && Dot(a, b) == Dot(b, a)
    ensures Dot(a, Direction(|a|, k)) == a[k]
  {
    DotPlus(a, b, c, |a|);
    DotTimes(a, b, f, |a|);
    DotSymmetric(a, b, |a|);
    DotDirection(a, k, |a|);
  }

  lemma SquareNonNegative(x: real)
    ensures x * x >= 0.0
  {
  }

  lemma {:induction false} SquaresNonNegative(a: seq<real>, n: nat)
    requires n <= |a|
    ensures DotUpto(a, a, n) >= 0.0
    decreases n
  {
    if n > 0 {
      SquaresNonNegative(a, n - 1);
      SquareNonNegative(a[n - 1]);
    }
  }

  // u * u <= v * v and v >= 0 give u <= v.
  lemma RootMonotone(u: real, v: real)
    requires u * u <= v * v && v >= 0.0
    ensures u <= v
  {
    assert (u - v) * (u + v) == u * u - v * v;
    if u + v > 0.0 {
      ProductSign(u - v, u + v);
    }
  }

  lemma ProductSign(p: real, q: real)
    requires p * q <= 0.0 && q > 0.0
    ensures p <= 0.0
  {
  }

  // (p + q)^2 is at least 4 p q.
  lemma SquareOfSum(p: real, q: real)
    ensures 4.0 * (p * q) <= (p + q) * (p + q)
  {
  }

  lemma ScaleLe(c: real, x: real, y: real)
    requires c >= 0.0 && x <= y
    ensures c * x <= c * y
  {
  }

  lemma CrossTerm(d: real, p: real, q: real, x: real, y: real)
    requires d * d <= p * q && p >= 0.0 && q >= 0.0
    ensures 2.0 * (d * (x * y)) <= p * (y * y) + q * (x * x)
  {
    var u, v := 2.0 * (d * (x * y)), p * (y * y) + q * (x * x);
    SquareNonNegative(x);
    SquareNonNegative(y);
    ScaleLe(p, 0.0, y * y);
    ScaleLe(q, 0.0, x * x);
    assert v >= 0.0;
    var xy := x * y;
    SquareNonNegative(xy);
    assert u * u == 4.0 * ((xy * xy) * (d * d)) by {
      assert u == (2.0 * d) * xy;
      assert u * u == ((2.0 * d) * (2.0 * d)) * (xy * xy);
    }
    ScaleLe(xy * xy, d * d, p * q);
    SquareOfSum(p * (y * y), q * (x * x));
    assert (p * (y * y)) * (q * (x * x)) == (xy * xy) * (p * q) by {
      assert (xy * xy) == (x * x) * (y * y);
    }
    RootMonotone(u, v);
  }

  lemma CauchyStep(d: real, p: real, q: real, x: real, y: real)
    requires d * d <= p * q && p >= 0.0 && q >= 0.0
    ensures (d + x * y) * (d + x * y) <= (p + x * x) * (q + y * y)
  {
    CrossTerm(d, p, q, x, y);
    var xy := x * y;
    assert (d + xy) * (d + xy) == d * d + 2.0 * (d * xy) + xy * xy;
    assert (p + x * x) * (q + y * y) == p * q + p * (y * y) + q * (x * x) + (x * x) * (y * y);
    assert xy * xy == (x * x) * (y * y);
  }

  /** Cauchy-Schwarz. */
  lemma {:induction false} CauchySchwarz(a: seq<real>, b: seq<real>, n: nat)
    requires n <= |a| && n <= |b|
    ensures DotUpto(a, b, n) * DotUpto(a, b, n) <= DotUpto(a, a, n) * DotUpto(b, b, n)
    decreases n
  {
    if n > 0 {
      CauchySchwarz(a, b, n - 1);
      SquaresNonNegative(a, n - 1);
      SquaresNonNegative(b, n - 1);
      CauchyStep(DotUpto(a, b, n - 1), DotUpto(a, a, n - 1), DotUpto(b, b, n - 1), a[n - 1], b[n - 1]);
    }
  }

  // --------------------------------------------------------- normalisation

  const TINY: real := 0.000000000001

  function Scaled(v: seq<real>, c: real): (w: seq<real>)
    ensures |w| == |v|
  {
    seq(|v|, i requires 0 <= i < |v| => v[i] * c)
  }

  /** l2_normalize of v, c being what 1 / sqrt came out as. */
  function Normalized(v: seq<real>, c: real): (w: seq<real>)
    ensures |w| == |v|
  {
    Scaled(v, if Dot(v, v) < TINY then 0.0 else c)
  }

  method L2Normalize(v: array<real>, c: real)
    modifies v
    ensures v[..] == Normalized(old(v[..]), c)
  {
    var s := 0.0;
    var i := 0;
    while i < v.Length
      invariant 0 <= i <= v.Length && v[..] == old(v[..]) && s == DotUpto(v[..], v[..], i)
    {
      s := s + v[i] * v[i];
      i := i + 1;
    }
    if s < TINY {
      Clear(v);
    } else {
      ScaleInPlace(v, c);
    }
  }

  method Clear(v: array<real>)
    modifies v
    ensures v[..] == Scaled(old(v[..]), 0.0)
  {
    var i := 0;
    while i < v.Length
      invariant 0 <= i <= v.Length
      invariant forall k :: 0 <= k < i ==> v[k] == 0.0
    {
      v[i] := 0.0;
      i := i + 1;
    }
    ghost var zero := Scaled(old(v[..]), 0.0);
    assert forall k :: 0 <= k < v.Length ==> zero[k] == 0.0;
  }

  method ScaleInPlace(v: array<real>, c: real)
    modifies v
    ensures v[..] == Scaled(old(v[..]), c)
  {
    ghost var scaled := Scaled(v[..], c);
    var i := 0;
    while i < v.Length
      invariant 0 <= i <= v.Length
      invariant forall k :: 0 <= k < i ==> v[k] == scaled[k]
      invariant forall k :: i <= k < v.Length ==> v[k] == old(v[k])
    {
      assert scaled[i] == old(v[..])[i] * c;
      v[i] := v[i] * c;
      i := i + 1;
    }
  }

  lemma {:induction false} ScaledDot(v: seq<real>, c: real, n: nat)
    requires n <= |v|
    ensures DotUpto(Scaled(v, c), Scaled(v, c), n) == (c * c) * DotUpto(v, v, n)
    decreases n
  {
    if n > 0 {
      ScaledDot(v, c, n - 1);
      var x := v[n - 1];
      assert (x * c) * (x * c) == (c * c) * (x * x);
    }
  }

  /** Norm 1, or the zero vector. */
  predicate UnitOrZero(v: seq<real>) {
    Dot(v, v) == 1.0 || Dot(v, v) == 0.0
  }

  /** c is the exact reciprocal root: the result has norm 1 unless the input was
      (nearly) zero, and then it is zero. */
  lemma NormalizedIsUnit(v: seq<real>, c: real)
    requires Dot(v, v) >= 0.000000000001 ==> (c * c) * Dot(v, v) == 1.0
    ensures var w := Normalized(v, c);
            && UnitOrZero(w)
            && (Dot(w, w) == 1.0 <==> Dot(v, v) >= 0.000000000001)
            && (Dot(v, v) < 0.000000000001 ==> forall i :: 0 <= i < |w| ==> w[i] == 0.0)
  {
    var f := if Dot(v, v) < TINY then 0.0 else c;
    ScaledDot(v, f, |v|);
  }

  /** And it points where the input does. */
  lemma NormalizedAlong(v: seq<real>, c: real)
    requires Dot(v, v) >= 0.000000000001 && c > 0.0
    ensures var w := Normalized(v, c);
            Dot(w, v) > 0.0 && forall i, j :: 0 <= i < |v| && 0 <= j < |v| ==> w[i] * v[j] == w[j] * v[i]
  {
    var w := Normalized(v, c);
    DotTimes(v, v, c, |v|);
    ScaleUp(c, Dot(v, v));
    forall i, j | 0 <= i < |v| && 0 <= j < |v| ensures w[i] * v[j] == w[j] * v[i] {
      Swap(v[i], v[j], c);
    }
  }

  lemma ScaleUp(c: real, d: real)
    requires c > 0.0 && d > 0.0
    ensures c * d > 0.0
  {
  }

  lemma Swap(x: real, y: real, c: real)
    ensures (x * c) * y == (y * c) * x
  {
  }

  /** Similarities of normalised vectors lie between -1 and 1. */
  lemma SimilarityRange(a: seq<real>, b: seq<real>)
    requires |a| == |b| && UnitOrZero(a) && UnitOrZero(b)
    ensures -1.0 <= Dot(a, b) <= 1.0
  {
    CauchySchwarz(a, b, |a|);
    var d := Dot(a, b);
    assert d * d <= 1.0;
    RootMonotone(d, 1.0);
    assert (-d) * (-d) == d * d;
    RootMonotone(-d, 1.0);
  }

  lemma ZeroDot(a: seq<real>, b: seq<real>)
    requires |a| == |b| && Dot(a, a) == 0.0
    ensures Dot(a, b) == 0.0
  {
    CauchySchwarz(a, b, |a|);
    var d := Dot(a, b);
    assert d * d <= 0.0;
    RootMonotone(d, 0.0);
    assert (-d) * (-d) == d * d;
    RootMonotone(-d, 0.0);
  }

  // ------------------------------------------------------------- threshold

  function MinReal(a: real, b: real): real { if a < b then a else b }

  function MaxReal(a: real, b: real): real { if a < b then b else a }

  /** The least of 1 and the similarities of entry i to entries below j. */
  function RowMin(embs: seq<Embedding>, i: nat, j: nat): real
    requires i < |embs| && j <= |embs|
  {
    if j <= i + 1 then 1.0 else MinReal(RowMin(embs, i, j - 1), Dot(embs[i], embs[j - 1]))
  }

  /** The least of 1 and all pairwise similarities of the first n rows. */
  function MinSim(embs: seq<Embedding>, n: nat): real
    requires n <= |embs|
  {
    if n == 0 then 1.0 else MinReal(MinSim(embs, n - 1), RowMin(embs, n - 1, |embs|))
  }

  function Threshold(embs: seq<Embedding>, floor: real, margin: real): real {
    if |embs| < 2 then floor else MaxReal(floor, MinSim(embs, |embs|) - margin)
  }

  method PickThreshold(embs: seq<Embedding>, floor: real, margin: real) returns (t: real)
    ensures t == Threshold(embs, floor, margin)
  {
    if |embs| < 2 {
      return floor;
    }
    var mn := 1.0;
    var i := 0;
    while i < |embs|
      invariant 0 <= i <= |embs| && mn == MinSim(embs, i)
    {
      var j := i + 1;
      ghost var before := mn;
      while j < |embs|
        invariant i < j <= |embs| && mn == MinReal(before, RowMin(embs, i, j))
      {
        var s := CosineSimNormed(embs[i], embs[j], |embs[i]|);
        if s < mn {
          mn := s;
        }
        j := j + 1;
      }
      i := i + 1;
    }
    t := MaxReal(floor, mn - margin);
  }

  /** m is the least of 1 and the similarities of all pairs. */
  predicate IsMinSim(embs: seq<Embedding>, m: real) {
    && m <= 1.0
    && (forall i, j :: 0 <= i < j < |embs| ==> m <= Dot(embs[i], embs[j]))
    && (m == 1.0 || exists i, j :: 0 <= i < j < |embs| && m == Dot(embs[i], embs[j]))
  }

  lemma {:induction false} RowMinIs(embs: seq<Embedding>, i: nat, n: nat)
    requires i < |embs| && n <= |embs|
    ensures RowMin(embs, i, n) <= 1.0
    ensures forall j :: i < j < n ==> RowMin(embs, i, n) <= Dot(embs[i], embs[j])
    ensures RowMin(embs, i, n) == 1.0 || exists j :: i < j < n && RowMin(embs, i, n) == Dot(embs[i], embs[j])
    decreases n
  {
    if n > i + 1 {
      RowMinIs(embs, i, n - 1);
    }
  }

  lemma {:induction false} MinSimUpto(embs: seq<Embedding>, n: nat)
    requires n <= |embs|
    ensures MinSim(embs, n) <= 1.0
    ensures forall i, j :: 0 <= i < n && i < j < |embs| ==> MinSim(embs, n) <= Dot(embs[i], embs[j])
    ensures MinSim(embs, n) == 1.0 || exists i, j :: 0 <= i < j < |embs| && MinSim(embs, n) == Dot(embs[i], embs[j])
    decreases n
  {
    if n > 0 {
      MinSimUpto(embs, n - 1);
      RowMinIs(embs, n - 1, |embs|);
    }
  }

  lemma MinSimIs(embs: seq<Embedding>)
    ensures IsMinSim(embs, MinSim(embs, |embs|))
  {
    MinSimUpto(embs, |embs|);
  }

  /** Between the floor and max(floor, 1 - margin). */
  lemma ThresholdRange(embs: seq<Embedding>, floor: real, margin: real)
    ensures floor <= Threshold(embs, floor, margin)
    ensures Threshold(embs, floor, margin) <= MaxReal(floor, 1.0 - margin)
    ensures |embs| >= 2 ==> forall i, j :: 0 <= i < j < |embs| ==>
              Threshold(embs, floor, margin) <= MaxReal(floor, Dot(embs[i], embs[j]) - margin)
  {
    MinSimIs(embs);
  }

  /** From two embeddings on, the threshold is the greatest that the floor allows
      or that is at most 1 and every pair's similarity, less the margin; below
      two it is the floor. */
  lemma ThresholdIs(embs: seq<Embedding>, floor: real, margin: real, t: real)
    ensures |embs| < 2 ==> Threshold(embs, floor, margin) == floor
    ensures |embs| >= 2 ==>
              (t <= Threshold(embs, floor, margin) <==>
                 t <= floor
                 || (t <= 1.0 - margin && forall i, j :: 0 <= i < j < |embs| ==> t <= Dot(embs[i], embs[j]) - margin))
  {
    MinSimIs(embs);
  }

  lemma PairBelow(a: seq<Embedding>, b: seq<Embedding>, m: real, n: real)
    requires IsMinSim(a, m) && IsMinSim(b, n)
    requires forall i, j :: 0 <= i < j < |a| ==> n <= Dot(a[i], a[j])
    ensures n <= m
  {
  }

  /** The order in which the frames were accepted does not matter. */
  lemma ThresholdPermutes(a: seq<Embedding>, b: seq<Embedding>, floor: real, margin: real)
    requires multiset(a) == multiset(b)
    ensures Threshold(a, floor, margin) == Threshold(b, floor, margin)
  {
    assert |a| == |multiset(a)| == |multiset(b)| == |b|;
    MinSimIs(a);
    MinSimIs(b);
    PermutedMin(a, b, MinSim(b, |b|));
    PermutedMin(b, a, MinSim(a, |a|));
    PairBelow(a, b, MinSim(a, |a|), MinSim(b, |b|));
    PairBelow(b, a, MinSim(b, |b|), MinSim(a, |a|));
  }

  lemma PermutedMin(a: seq<Embedding>, b: seq<Embedding>, m: real)
    requires multiset(a) == multiset(b) && IsMinSim(b, m)
    ensures forall i, j :: 0 <= i < j < |a| ==> m <= Dot(a[i], a[j])
  {
    forall i, j | 0 <= i < j < |a| ensures m <= Dot(a[i], a[j]) {
      var p, q := Pairs.PairIn(a, b, i, j);
      DotSymmetric(b[p], b[q], |b[p]|);
    }
  }

  /** One more embedding never raises the threshold, from two on. */
  lemma ThresholdFalls(embs: seq<Embedding>, e: Embedding, floor: real, margin: real)
    requires |embs| >= 2
    ensures Threshold(embs + [e], floor, margin) <= Threshold(embs, floor, margin)
  {
    var more := embs + [e];
    MinSimIs(embs);
    MinSimIs(more);
    forall i, j | 0 <= i < j < |embs| ensures MinSim(more, |more|) <= Dot(embs[i], embs[j]) {
      assert more[i] == embs[i] && more[j] == embs[j];
    }
    PairBelow(embs, more, MinSim(embs, |embs|), MinSim(more, |more|));
  }

  /** No threshold is above 1, the similarity of a normalised vector to itself. */
  lemma ThresholdAtMostOne(embs: seq<Embedding>, floor: real, margin: real)
    requires floor <= 1.0 && margin >= 0.0
    ensures Threshold(embs, floor, margin) <= 1.0
  {
  }
}
