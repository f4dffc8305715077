/** Intersection over union and greedy non-maximum suppression
    (daemon/models.cpp), over the reals. */
module Nms {
  import Greedy
  import Pairs
  import Ties

  datatype Point = Point(x: real, y: real)

  datatype Rect = Rect(x: real, y: real, w: real, h: real)

  datatype Detection = Detection(box: Rect, kps: seq<Point>, score: real)

  function Max(a: real, b: real): real { if a < b then b else a }

  function Min(a: real, b: real): real { if b < a then b else a }

  function Area(r: Rect): real { r.w * r.h }

  function OverlapW(a: Rect, b: Rect): real { Max(0.0, Min(a.x + a.w, b.x + b.w) - Max(a.x, b.x)) }

  function OverlapH(a: Rect, b: Rect): real { Max(0.0, Min(a.y + a.h, b.y + b.h) - Max(a.y, b.y)) }

  function Quotient(i: real, u: real): real { if u > 0.0 then i / u else 0.0 }

  /** What a w by h overlap is of two areas. */
  function Ratio(w: real, h: real, area: real, area': real): real {
    Quotient(w * h, area + area' - w * h)
  }

  function Iou(a: Rect, b: Rect): real { Ratio(OverlapW(a, b), OverlapH(a, b), Area(a), Area(b)) }

  /** Boxes as decode builds them: cv::Rect from two corners has no negative
      size. */
  predicate Proper(r: Rect) { r.w >= 0.0 && r.h >= 0.0 }

  lemma IouSymmetric(a: Rect, b: Rect)
    ensures Iou(a, b) == Iou(b, a)
  {
    assert OverlapW(a, b) == OverlapW(b, a) && OverlapH(a, b) == OverlapH(b, a);
    RatioSymmetric(OverlapW(a, b), OverlapH(a, b), Area(a), Area(b));
  }

  lemma RatioSymmetric(w: real, h: real, area: real, area': real)
    ensures Ratio(w, h, area, area') == Ratio(w, h, area', area)
  {
  }

  /** A rectangle of w by h inside two others, aw by ah and bw by bh. */
  lemma Inner(w: real, h: real, aw: real, ah: real, bw: real, bh: real)
    requires 0.0 <= w <= aw && 0.0 <= h <= ah && w <= bw && h <= bh
    ensures var inter := w * h;
            var uni := aw * ah + bw * bh - inter;
            && 0.0 <= inter <= uni
            && (w > 0.0 && h > 0.0 ==> inter > 0.0)
            && (w == 0.0 || h == 0.0 ==> inter == 0.0)
  {
  }

  lemma QuotientRange(i: real, u: real)
    requires 0.0 <= i <= u
    ensures 0.0 <= Quotient(i, u) <= 1.0 && (Quotient(i, u) > 0.0 <==> i > 0.0)
    ensures i == u && u > 0.0 ==> Quotient(i, u) == 1.0
  {
  }

  lemma InnerRatio(w: real, h: real, aw: real, ah: real, bw: real, bh: real, area: real, area': real)
    requires 0.0 <= w <= aw && 0.0 <= h <= ah && w <= bw && h <= bh && area == aw * ah && area' == bw * bh
    ensures 0.0 <= Ratio(w, h, area, area') <= 1.0
    ensures Ratio(w, h, area, area') > 0.0 <==> w > 0.0 && h > 0.0
  {
    Inner(w, h, aw, ah, bw, bh);
    QuotientRange(w * h, aw * ah + bw * bh - w * h);
  }

  lemma OverlapInside(a: Rect, b: Rect)
    requires Proper(a) && Proper(b)
    ensures 0.0 <= OverlapW(a, b) <= a.w && OverlapW(a, b) <= b.w
    ensures 0.0 <= OverlapH(a, b) <= a.h && OverlapH(a, b) <= b.h
  {
  }

  /** Over proper boxes it is a ratio between 0 and 1, positive exactly if the
      boxes overlap in both directions. */
  lemma IouRange(a: Rect, b: Rect)
    requires Proper(a) && Proper(b)
    ensures 0.0 <= Iou(a, b) <= 1.0
    ensures Iou(a, b) > 0.0 <==> OverlapW(a, b) > 0.0 && OverlapH(a, b) > 0.0
  {
    OverlapInside(a, b);
    InnerRatio(OverlapW(a, b), OverlapH(a, b), a.w, a.h, b.w, b.h, Area(a), Area(b));
  }

  /** A box with area overlaps itself completely. */
  lemma IouSelf(a: Rect)
    requires a.w > 0.0 && a.h > 0.0
    ensures Iou(a, a) == 1.0
  {
    assert OverlapW(a, a) == a.w && OverlapH(a, a) == a.h;
    var area := Area(a);
    Inner(a.w, a.h, a.w, a.h, a.w, a.h);
    QuotientRange(area, area);
    assert area + area - area == area;
  }

  predicate Inside(p: Point, r: Rect) { r.x <= p.x <= r.x + r.w && r.y <= p.y <= r.y + r.h }

  /** The points of r are exactly the common points of a and b. */
  ghost predicate IsOverlap(r: Rect, a: Rect, b: Rect) {
    Proper(r) && forall p: Point :: Inside(p, r) <==> Inside(p, a) && Inside(p, b)
  }

  ghost predicate Apart(a: Rect, b: Rect) { forall p: Point :: !(Inside(p, a) && Inside(p, b)) }

  /** Two boxes have no point in common, or those they have fill one rectangle. */
  lemma OverlapExists(a: Rect, b: Rect)
    requires Proper(a) && Proper(b)
    ensures Apart(a, b) || exists r :: IsOverlap(r, a, b)
  {
    if !Apart(a, b) {
      assert IsOverlap(Rect(Max(a.x, b.x), Max(a.y, b.y), OverlapW(a, b), OverlapH(a, b)), a, b);
    }
  }

  lemma OverlapIs(r: Rect, a: Rect, b: Rect)
    requires Proper(a) && Proper(b) && IsOverlap(r, a, b)
    ensures OverlapW(a, b) == r.w && OverlapH(a, b) == r.h
  {
    assert Inside(Point(r.x, r.y), r) && Inside(Point(r.x + r.w, r.y + r.h), r);
    assert Inside(Point(Max(a.x, b.x), Max(a.y, b.y)), r);
    assert Inside(Point(Min(a.x + a.w, b.x + b.w), Min(a.y + a.h, b.y + b.h)), r);
  }

  lemma RatioIs(w: real, h: real, area: real, area': real, uni: real)
    requires uni == area + area' - w * h
    ensures uni > 0.0 ==> Ratio(w, h, area, area') * uni == w * h
    ensures uni == 0.0 ==> Ratio(w, h, area, area') == 0.0
  {
  }

  /** Iou is the area of the common points over that of the union. */
  lemma IouIs(a: Rect, b: Rect, r: Rect, uni: real)
    requires Proper(a) && Proper(b) && IsOverlap(r, a, b) && uni == Area(a) + Area(b) - Area(r)
    ensures 0.0 <= Area(r) <= uni
    ensures uni > 0.0 ==> Iou(a, b) * uni == Area(r)
    ensures uni == 0.0 ==> Iou(a, b) == 0.0
  {
    OverlapIs(r, a, b);
    OverlapInside(a, b);
    RatioIs(r.w, r.h, Area(a), Area(b), uni);
    UnionHolds(r, a, b);
  }

  lemma UnionHolds(r: Rect, a: Rect, b: Rect)
    requires 0.0 <= r.w <= a.w && r.w <= b.w && 0.0 <= r.h <= a.h && r.h <= b.h
    ensures 0.0 <= Area(r) <= Area(a) + Area(b) - Area(r)
  {
    Inner(r.w, r.h, a.w, a.h, b.w, b.h);
  }

  /** Boxes with no point in common do not overlap. */
  lemma IouApart(a: Rect, b: Rect)
    requires Proper(a) && Proper(b) && Apart(a, b)
    ensures Iou(a, b) == 0.0
  {
    IouRange(a, b);
    if OverlapW(a, b) > 0.0 && OverlapH(a, b) > 0.0 {
      assert Inside(Point(Max(a.x, b.x), Max(a.y, b.y)), a) && Inside(Point(Max(a.x, b.x), Max(a.y, b.y)), b);
    }
  }

  /** A box inside another fills as much of it as their areas say. */
  lemma IouContained(a: Rect, b: Rect)
    requires Proper(a) && Proper(b) && Area(b) > 0.0
    requires forall p: Point :: Inside(p, a) ==> Inside(p, b)
    ensures Iou(a, b) * Area(b) == Area(a)
  {
    assert IsOverlap(a, a, b);
    IouIs(a, b, a, Area(b));
  }

  // --------------------------------------------------------------- sorting

  predicate Descending(s: seq<Detection>) {
    forall i, j :: 0 <= i < j < |s| ==> s[i].score >= s[j].score
  }

  /** One of the orders std::sort may produce: it fixes no order among equal
      scores. */
  predicate SortOf(s: seq<Detection>, dets: seq<Detection>) {
    Descending(s) && multiset(s) == multiset(dets)
  }

  function Insert(d: Detection, s: seq<Detection>): seq<Detection> {
    if s == [] || d.score >= s[0].score then [d] + s else [s[0]] + Insert(d, s[1..])
  }

  lemma {:induction false} InsertKeeps(d: Detection, s: seq<Detection>)
    ensures multiset(Insert(d, s)) == multiset(s) + multiset{d}
    decreases |s|
  {
    if s != [] && d.score < s[0].score {
      InsertKeeps(d, s[1..]);
      assert s == [s[0]] + s[1..];
    }
  }

  lemma {:induction false} InsertSorts(d: Detection, s: seq<Detection>)
    requires Descending(s)
    ensures Descending(Insert(d, s)) && Insert(d, s) != []
    ensures Insert(d, s)[0] == if s == [] || d.score >= s[0].score then d else s[0]
    decreases |s|
  {
    if s != [] && d.score < s[0].score {
      var rest := Insert(d, s[1..]);
      InsertSorts(d, s[1..]);
      assert s[0].score >= rest[0].score;
      assert Insert(d, s) == [s[0]] + rest;
    }
  }

  lemma {:induction false} SortExists(dets: seq<Detection>)
    ensures exists s :: SortOf(s, dets)
    decreases |dets|
  {
    if dets == [] {
      assert SortOf([], dets);
    } else {
      SortExists(dets[1..]);
      var s :| SortOf(s, dets[1..]);
      InsertSorts(dets[0], s);
      InsertKeeps(dets[0], s);
      assert dets == [dets[0]] + dets[1..];
      assert SortOf(Insert(dets[0], s), dets);
    }
  }

  predicate DistinctScores(s: seq<Detection>) {
    forall i, j :: 0 <= i < j < |s| ==> s[i].score != s[j].score
  }

  /** The best of a sorted list is the best of any sort of the same elements. */
  lemma SameHead(a: seq<Detection>, b: seq<Detection>)
    requires Descending(a) && Descending(b) && multiset(a) == multiset(b) && DistinctScores(a) && a != []
    ensures b != [] && a[0] == b[0]
  {
    assert a[0] in multiset(b);
    assert b[0] in multiset(a);
    var i :| 0 <= i < |a| && a[i] == b[0];
    var j :| 0 <= j < |b| && b[j] == a[0];
    assert a[0].score >= b[0].score >= a[0].score;
  }

  lemma SameTail(a: seq<Detection>, b: seq<Detection>)
    requires a != [] && b != [] && a[0] == b[0] && multiset(a) == multiset(b)
    ensures multiset(a[1..]) == multiset(b[1..])
  {
    assert a == [a[0]] + a[1..] && b == [b[0]] + b[1..];
    assert multiset(a[1..]) == multiset(a) - multiset{a[0]};
    assert multiset(b[1..]) == multiset(b) - multiset{b[0]};
  }

  /** With distinct scores there is only one order. */
  lemma {:induction false} SortUnique(a: seq<Detection>, b: seq<Detection>)
    requires Descending(a) && Descending(b) && multiset(a) == multiset(b) && DistinctScores(a)
    ensures a == b
    decreases |a|
  {
    if a == [] {
      assert |multiset(b)| == 0;
    } else {
      SameHead(a, b);
      SameTail(a, b);
      SortUnique(a[1..], b[1..]);
      assert a == [a[0]] + a[1..] && b == [b[0]] + b[1..];
    }
  }

  // ----------------------------------------------------------- suppression

  /** a, if kept, drops b. */
  predicate Over(a: Detection, b: Detection, thr: real) { Iou(a.box, b.box) > thr }

  function Drops(thr: real): (Detection, Detection) -> bool { (a, b) => Over(a, b, thr) }

  /** What is left of a sorted list. */
  function Survivors(s: seq<Detection>, thr: real): seq<Detection> { Greedy.Survivors(s, Drops(thr)) }

  /** nms: sort, then sweep with the dropped flags. */
  method Suppress(dets: seq<Detection>, thr: real) returns (keep: seq<Detection>)
    ensures exists s :: SortOf(s, dets) && keep == Survivors(s, thr)
  {
    SortExists(dets);
    var s: seq<Detection> :| SortOf(s, dets);
    keep := Greedy.Sweep(s, Drops(thr));
  }

  // ------------------------------------------------------------ properties

  /** Everything the caller relies on, for whatever order the sort chose: the
      result is part of the input, in descending order; no two of it overlap by
      more than the threshold; everything missing overlaps something kept with at
      least its score by more; and the first is a best-scoring detection. */
  lemma SuppressCorrect(dets: seq<Detection>, s: seq<Detection>, thr: real)
    requires SortOf(s, dets)
    ensures var keep := Survivors(s, thr);
            && Descending(keep) && multiset(keep) <= multiset(dets)
            && (forall a, b :: 0 <= a < b < |keep| ==> Iou(keep[a].box, keep[b].box) <= thr)
            && (forall d :: d in dets && d !in keep ==>
                  exists k :: k in keep && k.score >= d.score && Over(k, d, thr))
            && (dets != [] ==> keep != [] && forall d :: d in dets ==> keep[0].score >= d.score)
  {
    KeepsOrder(dets, s, thr);
    KeepsApart(s, thr);
    if dets != [] {
      KeepsBest(dets, s, thr);
    }
    forall d | d in dets && d !in Survivors(s, thr)
      ensures exists k :: k in Survivors(s, thr) && k.score >= d.score && Over(k, d, thr)
    {
      DropWitness(dets, s, d, thr);
    }
  }

  /** Two survivors stood in the list in that order. */
  lemma KeptPair(s: seq<Detection>, thr: real, a: nat, b: nat) returns (i: nat, j: nat)
    requires a < b < |Survivors(s, thr)|
    ensures i < j < |s| && s[i] == Survivors(s, thr)[a] && s[j] == Survivors(s, thr)[b]
  {
    var f := Drops(thr);
    Greedy.UptoLength(s, |s|, f);
    Greedy.UptoKept(s, |s|, f, a);
    Greedy.UptoKept(s, |s|, f, b);
    Greedy.KeptRises(s, |s|, f, a, b);
    i, j := Greedy.Kept(s, |s|, f)[a], Greedy.Kept(s, |s|, f)[b];
  }

  lemma KeepsOrder(dets: seq<Detection>, s: seq<Detection>, thr: real)
    requires SortOf(s, dets)
    ensures Descending(Survivors(s, thr)) && multiset(Survivors(s, thr)) <= multiset(dets)
  {
    var f, keep := Drops(thr), Survivors(s, thr);
    Greedy.UptoSub(s, |s|, f);
    assert s[..|s|] == s;
    forall a, b | 0 <= a < b < |keep| ensures keep[a].score >= keep[b].score {
      var i, j := KeptPair(s, thr, a, b);
    }
  }

  lemma KeepsApart(s: seq<Detection>, thr: real)
    ensures var keep := Survivors(s, thr);
            forall a, b :: 0 <= a < b < |keep| ==> Iou(keep[a].box, keep[b].box) <= thr
  {
    var f, keep := Drops(thr), Survivors(s, thr);
    Greedy.NoneRuledOut(s, f);
    forall a, b | 0 <= a < b < |keep| ensures Iou(keep[a].box, keep[b].box) <= thr {
      assert !f(keep[a], keep[b]);
    }
  }

  lemma KeepsBest(dets: seq<Detection>, s: seq<Detection>, thr: real)
    requires SortOf(s, dets) && dets != []
    ensures Survivors(s, thr) != [] && forall d :: d in dets ==> Survivors(s, thr)[0].score >= d.score
  {
    assert dets[0] in multiset(s);
    Greedy.FirstKept(s, |s|, Drops(thr));
    forall d | d in dets ensures s[0].score >= d.score {
      assert d in multiset(s);
      var i :| 0 <= i < |s| && s[i] == d;
    }
  }

  lemma DropWitness(dets: seq<Detection>, s: seq<Detection>, d: Detection, thr: real)
    requires SortOf(s, dets) && d in dets && d !in Survivors(s, thr)
    ensures exists k :: k in Survivors(s, thr) && k.score >= d.score && Over(k, d, thr)
  {
    var f := Drops(thr);
    var keep := Survivors(s, thr);
    assert d in multiset(s);
    var i :| 0 <= i < |s| && s[i] == d;
    if i in Greedy.Kept(s, |s|, f) {
      Greedy.KeptIn(s, f, i);
    }
    var a := Greedy.RuledOutBy(s, f, i);
    assert keep[a] in keep && Over(keep[a], d, thr);
  }

  /** Running it on its own result drops nothing, in whatever order the second
      sort puts equal scores; with distinct scores it changes nothing at all. */
  lemma SuppressIdempotent(dets: seq<Detection>, s: seq<Detection>, t: seq<Detection>, thr: real)
    requires SortOf(s, dets) && SortOf(t, Survivors(s, thr))
    ensures Survivors(t, thr) == t && multiset(Survivors(t, thr)) == multiset(Survivors(s, thr))
    ensures DistinctScores(dets) ==> Survivors(t, thr) == Survivors(s, thr)
  {
    var f := Drops(thr);
    var keep := Survivors(s, thr);
    SuppressCorrect(dets, s, thr);
    forall a, b | 0 <= a < b < |t| ensures !f(t[a], t[b]) {
      var p, q := Pairs.PairIn(t, keep, a, b);
      IouSymmetric(t[a].box, t[b].box);
    }
    Greedy.AllSurvive(t, |t|, f);
    assert t[..|t|] == t;
    if DistinctScores(dets) {
      KeepsDistinct(dets, s, thr);
      SortUnique(keep, t);
    }
  }

  lemma KeepsDistinct(dets: seq<Detection>, s: seq<Detection>, thr: real)
    requires SortOf(s, dets) && DistinctScores(dets)
    ensures DistinctScores(s) && DistinctScores(Survivors(s, thr))
  {
    forall a, b | 0 <= a < b < |s| ensures s[a].score != s[b].score {
      var p, q := Pairs.PairIn(s, dets, a, b);
    }
    var keep := Survivors(s, thr);
    forall a, b | 0 <= a < b < |keep| ensures keep[a].score != keep[b].score {
      var i, j := KeptPair(s, thr, a, b);
    }
  }

  /** With distinct scores the result depends on the set of detections only, not
      on their order or on what the sort does. */
  lemma SuppressCanonical(dets: seq<Detection>, dets': seq<Detection>, s: seq<Detection>, s': seq<Detection>, thr: real)
    requires multiset(dets) == multiset(dets') && DistinctScores(dets)
    requires SortOf(s, dets) && SortOf(s', dets')
    ensures Survivors(s, thr) == Survivors(s', thr)
  {
    KeepsDistinct(dets, s, thr);
    SortUnique(s, s');
  }

  lemma TwoEntries(a: Detection, b: Detection, thr: real)
    requires Iou(a.box, b.box) > thr
    ensures Survivors([a, b], thr) == [a]
  {
    var s, f := [a, b], Drops(thr);
    assert Greedy.Survives(s, 0, f);
    assert f(s[0], s[1]);
    assert !Greedy.Survives(s, 1, f);
    assert Greedy.Upto(s, 0, f) == [] && Greedy.Upto(s, 1, f) == [a];
    assert Greedy.Upto(s, 2, f) == [a];
  }

  /** Equal scores: the order the sort picks decides who is kept. */
  lemma TiesMatter(a: Detection, b: Detection, thr: real)
    requires a.score == b.score && a != b && Iou(a.box, b.box) > thr
    ensures SortOf([a, b], [a, b]) && SortOf([b, a], [a, b])
    ensures Survivors([a, b], thr) == [a] && Survivors([b, a], thr) == [b]
  {
    IouSymmetric(a.box, b.box);
    TwoEntries(a, b, thr);
    TwoEntries(b, a, thr);
    assert multiset([a, b]) == multiset([b, a]);
  }

  // -------------------------------------------------- when ties matter, exactly

  function Score(): Detection -> real { (d: Detection) => d.score }

  /** A kept detection of strictly higher score drops d. */
  predicate Beaten(s: seq<Detection>, d: Detection, thr: real) {
    exists k :: k in Survivors(s, thr) && k.score > d.score && Over(k, d, thr)
  }

  /** Two different detections of equal score overlap too much, and no better one
      that is kept drops either. */
  predicate Tied(s: seq<Detection>, a: Detection, b: Detection, thr: real) {
    && a in s && b in s && a != b && a.score == b.score && Over(a, b, thr)
    && !Beaten(s, a, thr) && !Beaten(s, b, thr)
  }

  lemma KeptAt(s: seq<Detection>, k: Detection, thr: real) returns (i: nat)
    requires k in Survivors(s, thr)
    ensures i < |s| && s[i] == k && Greedy.Survives(s, i, Drops(thr))
  {
    var f := Drops(thr);
    var a :| 0 <= a < |Survivors(s, thr)| && Survivors(s, thr)[a] == k;
    Greedy.UptoLength(s, |s|, f);
    Greedy.UptoKept(s, |s|, f, a);
    Greedy.KeptSurvives(s, |s|, f, a);
    i := Greedy.Kept(s, |s|, f)[a];
  }

  lemma BeatenIs(s: seq<Detection>, d: Detection, thr: real)
    ensures Beaten(s, d, thr) <==> Ties.Beaten(s, d, Drops(thr), Score())
  {
    var f := Drops(thr);
    if Beaten(s, d, thr) {
      var k :| k in Survivors(s, thr) && k.score > d.score && Over(k, d, thr);
      var i := KeptAt(s, k, thr);
      assert Greedy.Survives(s, i, f) && f(s[i], d);
    }
    if Ties.Beaten(s, d, f, Score()) {
      var i :| 0 <= i < |s| && Greedy.Survives(s, i, f) && s[i].score > d.score && f(s[i], d);
      Greedy.KeptAll(s, |s|, f, i);
      Greedy.KeptIn(s, f, i);
      assert Over(s[i], d, thr);
    }
  }

  lemma TiedIs(s: seq<Detection>, thr: real)
    ensures Ties.TieFree(s, Drops(thr), Score()) <==> forall a, b :: !Tied(s, a, b, thr)
  {
    forall i, j | 0 <= i < |s| && 0 <= j < |s| ensures Ties.Tie(s, i, j, Drops(thr), Score()) <==> Tied(s, s[i], s[j], thr) {
      BeatenIs(s, s[i], thr);
      BeatenIs(s, s[j], thr);
    }
    if Ties.TieFree(s, Drops(thr), Score()) {
      forall a, b ensures !Tied(s, a, b, thr) {
        if a in s && b in s {
          var i :| 0 <= i < |s| && s[i] == a;
          var j :| 0 <= j < |s| && s[j] == b;
          assert !Ties.Tie(s, i, j, Drops(thr), Score());
        }
      }
    }
  }

  lemma OverMutual(s: seq<Detection>, thr: real)
    ensures Ties.Mutual(s, Drops(thr))
  {
    forall i, j | 0 <= i < |s| && 0 <= j < |s| ensures Over(s[i], s[j], thr) ==> Over(s[j], s[i], thr) {
      IouSymmetric(s[i].box, s[j].box);
    }
  }

  /** All descending orders keep the same detections exactly if no two are tied;
      any one of the orders shows it. */
  lemma OrderImmaterialIff(dets: seq<Detection>, s: seq<Detection>, thr: real)
    requires SortOf(s, dets)
    ensures (forall t :: SortOf(t, dets) ==> multiset(Survivors(t, thr)) == multiset(Survivors(s, thr)))
            <==> forall a, b :: !Tied(s, a, b, thr)
  {
    var f := Drops(thr);
    TiedIs(s, thr);
    if Ties.TieFree(s, f, Score()) {
      forall t | SortOf(t, dets) ensures multiset(Survivors(t, thr)) == multiset(Survivors(s, thr)) {
        Ties.TieFreeSame(s, t, f, Score());
      }
    } else {
      OverMutual(s, thr);
      var i, j :| 0 <= i < |s| && 0 <= j < |s| && Ties.Tie(s, i, j, f, Score());
      var t := Ties.TieDecides(s, i, j, f, Score());
      assert SortOf(t, dets) && multiset(Survivors(t, thr)) != multiset(Survivors(s, thr));
    }
  }

  predicate Top(dets: seq<Detection>, d: Detection) { d in dets && forall e :: e in dets ==> e.score <= d.score }

  /** dets.front() after nms */
  predicate Front(t: seq<Detection>, d: Detection, thr: real) {
    Survivors(t, thr) != [] && Survivors(t, thr)[0] == d
  }

  lemma FrontIsTop(dets: seq<Detection>, s: seq<Detection>, thr: real)
    requires SortOf(s, dets) && dets != []
    ensures s != [] && Front(s, s[0], thr) && Top(dets, s[0])
  {
    assert dets[0] in multiset(s);
    Greedy.FirstKept(s, |s|, Drops(thr));
    assert s[0] in multiset(dets);
    forall e | e in dets ensures e.score <= s[0].score {
      assert e in multiset(s);
    }
  }

  lemma TopFirst(dets: seq<Detection>, s: seq<Detection>, a: Detection) returns (t: seq<Detection>)
    requires SortOf(s, dets) && Top(dets, a)
    ensures SortOf(t, dets) && t != [] && t[0] == a
  {
    assert a in multiset(s);
    var i :| 0 <= i < |s| && s[i] == a;
    assert s[0] in multiset(dets);
    t := Ties.Moved(s, 0, i);
    Ties.MovedSame(s, 0, i);
    Ties.MovedDown(s, 0, i, Score());
  }

  /** The one detection the handlers use, the front, is the same for all descending
      orders exactly if all top scorers are the same detection. */
  lemma FrontIff(dets: seq<Detection>, s: seq<Detection>, thr: real)
    requires SortOf(s, dets) && dets != []
    ensures s != [] && Front(s, s[0], thr)
    ensures (forall t :: SortOf(t, dets) ==> Front(t, s[0], thr)) <==> forall a :: Top(dets, a) ==> a == s[0]
  {
    FrontIsTop(dets, s, thr);
    forall t | SortOf(t, dets) ensures t != [] && Front(t, t[0], thr) && Top(dets, t[0]) {
      FrontIsTop(dets, t, thr);
    }
    if a :| Top(dets, a) && a != s[0] {
      var t := TopFirst(dets, s, a);
      assert SortOf(t, dets) && !Front(t, s[0], thr);
    }
  }
}
