/** The face detector's pre- and postprocessing (daemon/models.cpp): letterboxing
    a frame into the square network input, sorting out the nine outputs, and
    turning anchors back into boxes of the frame. Over the reals. */
module Scrfd {
  import opened Nms
  import opened Wrappers

  const INPUT: int := 640
  const ANCHORS: int := 2

  // ------------------------------------------------------------- letterbox

  datatype Letterbox = Letterbox(scale: real, newW: int, newH: int, padX: int, padY: int)

  function Scale(cols: int, rows: int): real
    requires cols > 0 && rows > 0
  {
    Min(INPUT as real / cols as real, INPUT as real / rows as real)
  }

  /** preprocess_scrfd's geometry. */
  function Fit(cols: int, rows: int): Letterbox
    requires cols > 0 && rows > 0
  {
    var scale := Scale(cols, rows);
    var newW := (cols as real * scale).Floor;
    var newH := (rows as real * scale).Floor;
    Letterbox(scale, newW, newH, (INPUT - newW) / 2, (INPUT - newH) / 2)
  }

  /** The longer side fills the canvas. */
  lemma ScaleFills(cols: int, rows: int)
    requires cols > 0 && rows > 0
    ensures var s := Scale(cols, rows);
            && s > 0.0
            && (cols >= rows ==> cols as real * s == INPUT as real && 0.0 < rows as real * s <= INPUT as real)
            && (rows >= cols ==> rows as real * s == INPUT as real && 0.0 < cols as real * s <= INPUT as real)
  {
  }

  /** For any frame size the resized picture and its padding lie on the canvas,
      centred to within a pixel, and one side is filled exactly. The picture is
      empty, and cv::resize throws, exactly if one side is over 640 times the
      other. */
  lemma FitsCanvas(cols: int, rows: int)
    requires cols > 0 && rows > 0
    ensures var g := Fit(cols, rows);
            && g.scale > 0.0
            && 0 <= g.padX && 0 <= g.newW && g.padX + g.newW <= INPUT
            && 0 <= g.padY && 0 <= g.newH && g.padY + g.newH <= INPUT
            && 0 <= INPUT - g.newW - 2 * g.padX <= 1 && 0 <= INPUT - g.newH - 2 * g.padY <= 1
            && (g.newW == INPUT || g.newH == INPUT)
            && (g.newW > 0 && g.newH > 0 <==> rows <= INPUT * cols && cols <= INPUT * rows)
  {
    ScaleFills(cols, rows);
    if cols >= rows {
      NonEmptySide(rows, cols, Scale(cols, rows));
    } else {
      NonEmptySide(cols, rows, Scale(cols, rows));
    }
  }

  lemma NonEmptySide(short: int, long: int, s: real)
    requires 0 < short <= long && s > 0.0 && long as real * s == INPUT as real
    ensures (short as real * s).Floor > 0 <==> long <= INPUT * short
    ensures short <= INPUT * long
  {
  }

  function Remap(g: Letterbox, p: Point): Point
    requires g.scale != 0.0
  {
    Point((p.x - g.padX as real) / g.scale, (p.y - g.padY as real) / g.scale)
  }

  /** Where a point of the frame lands on the canvas. */
  function Place(g: Letterbox, p: Point): Point {
    Point(p.x * g.scale + g.padX as real, p.y * g.scale + g.padY as real)
  }

  /** remap undoes scale-then-pad, and the other way round. */
  lemma RemapInverts(g: Letterbox, p: Point)
    requires g.scale != 0.0
    ensures Remap(g, Place(g, p)) == p && Place(g, Remap(g, p)) == p
  {
  }

  /** The picture keeps its proportions: its far corner on the canvas is less than
      a pixel short of where the frame's far corner lands. */
  lemma FarCorner(cols: int, rows: int)
    requires cols > 0 && rows > 0
    ensures var g := Fit(cols, rows);
            var corner := Place(g, Point(cols as real, rows as real));
            && 0.0 <= corner.x - (g.padX + g.newW) as real < 1.0
            && 0.0 <= corner.y - (g.padY + g.newH) as real < 1.0
            && Place(g, Point(0.0, 0.0)) == Point(g.padX as real, g.padY as real)
  {
  }

  lemma QuotientSign(u: real, s: real)
    requires s > 0.0 && u >= 0.0
    ensures u / s >= 0.0
  {
  }

  lemma DivideRange(u: real, s: real, n: real)
    requires s > 0.0 && 0.0 <= u <= n * s
    ensures 0.0 <= u / s <= n
  {
    QuotientSign(u, s);
    QuotientSign(n * s - u, s);
    assert (n * s - u) / s == n - u / s;
  }

  /** Whatever lies on the picture's part of the canvas comes back inside the
      frame. */
  lemma RemapInside(cols: int, rows: int, p: Point)
    requires cols > 0 && rows > 0
    ensures var g := Fit(cols, rows);
            g.scale > 0.0 &&
            (g.padX as real <= p.x <= (g.padX + g.newW) as real && g.padY as real <= p.y <= (g.padY + g.newH) as real
             ==> 0.0 <= Remap(g, p).x <= cols as real && 0.0 <= Remap(g, p).y <= rows as real)
  {
    ScaleFills(cols, rows);
    var g := Fit(cols, rows);
    if g.padX as real <= p.x <= (g.padX + g.newW) as real && g.padY as real <= p.y <= (g.padY + g.newH) as real {
      DivideRange(p.x - g.padX as real, g.scale, cols as real);
      DivideRange(p.y - g.padY as real, g.scale, rows as real);
    }
  }

  // ----------------------------------------------------- sorting the outputs

  const NO_OUTPUT: int := -1

  /** Rows and columns of an output tensor, if it has the layout of a head. */
  function Rows(shape: seq<int>): int {
    if |shape| == 2 then shape[0] else if |shape| == 3 && shape[0] == 1 then shape[1] else -1
  }

  function Columns(shape: seq<int>): int {
    if |shape| == 2 then shape[1] else if |shape| == 3 && shape[0] == 1 then shape[2] else -1
  }

  /** 80, 40 and 20 cells a side. */
  function Side(si: nat): nat
    requires si < 3
  {
    if si == 0 then 80 else if si == 1 then 40 else 20
  }

  function Stride(si: nat): real
    requires si < 3
  {
    if si == 0 then 8.0 else if si == 1 then 16.0 else 32.0
  }

  function Cells(si: nat): (n: nat)
    requires si < 3
    ensures n == Side(si) * Side(si) * ANCHORS
  {
    if si == 0 then 12800 else if si == 1 then 3200 else 800
  }

  predicate Fits(shape: seq<int>, si: nat, columns: int)
    requires si < 3
  {
    Rows(shape) == Cells(si) && Columns(shape) == columns
  }

  /** A head's outputs have a row for each of its anchors and the columns of its
      kind, alone or in a batch of one. */
  lemma FitsIff(shape: seq<int>, si: nat, columns: int)
    requires si < 3 && columns > 0
    ensures var side := INPUT / [8, 16, 32][si];
            Fits(shape, si, columns) <==> shape == [side * side * 2, columns] || shape == [1, side * side * 2, columns]
  {
  }

  /** The last of the first n outputs with that shape. */
  function Last(shapes: seq<seq<int>>, n: nat, si: nat, columns: int): (i: int)
    requires n <= |shapes| && si < 3
    ensures NO_OUTPUT <= i < n
    ensures i != NO_OUTPUT ==> Fits(shapes[i], si, columns)
    ensures forall k :: i < k < n ==> !Fits(shapes[k], si, columns)
  {
    if n == 0 then NO_OUTPUT
    else if Fits(shapes[n - 1], si, columns) then n - 1
    else Last(shapes, n - 1, si, columns)
  }

  /** Which output is which, by stride. */
  datatype Heads = Heads(scores: seq<int>, bboxes: seq<int>, kpss: seq<int>)

  function Lasts(shapes: seq<seq<int>>, n: nat, columns: int): seq<int>
    requires n <= |shapes|
  {
    [Last(shapes, n, 0, columns), Last(shapes, n, 1, columns), Last(shapes, n, 2, columns)]
  }

  ghost predicate Present(shapes: seq<seq<int>>, si: nat, columns: int)
    requires si < 3
  {
    exists i :: HasShape(shapes, i, si, columns)
  }

  predicate HasShape(shapes: seq<seq<int>>, i: int, si: nat, columns: int)
    requires si < 3
  {
    0 <= i < |shapes| && Fits(shapes[i], si, columns)
  }

  /** categorize_outputs: None for "SCRFD output layout not understood". */
  function Categorized(shapes: seq<seq<int>>): Option<Heads> {
    var n := |shapes|;
    var h := Heads(Lasts(shapes, n, 1), Lasts(shapes, n, 4), Lasts(shapes, n, 10));
    if NO_OUTPUT in h.scores || NO_OUTPUT in h.bboxes || NO_OUTPUT in h.kpss then None else Some(h)
  }

  method CategorizeOutputs(shapes: seq<seq<int>>) returns (r: Option<Heads>)
    ensures r == Categorized(shapes)
  {
    var none := [NO_OUTPUT, NO_OUTPUT, NO_OUTPUT];
    var score, bbox, kps := none, none, none;
    var i := 0;
    while i < |shapes|
      invariant 0 <= i <= |shapes|
      invariant score == Lasts(shapes, i, 1) && bbox == Lasts(shapes, i, 4) && kps == Lasts(shapes, i, 10)
    {
      score, bbox, kps := Note(shapes, i, score, bbox, kps);
      i := i + 1;
    }
    var ok := AllFound(score, bbox, kps);
    r := if ok then Some(Heads(score, bbox, kps)) else None;
  }

  method AllFound(score: seq<int>, bbox: seq<int>, kps: seq<int>) returns (ok: bool)
    requires |score| == |bbox| == |kps| == 3
    ensures ok <==> NO_OUTPUT !in score && NO_OUTPUT !in bbox && NO_OUTPUT !in kps
  {
    var si := 0;
    while si < 3
      invariant 0 <= si <= 3
      invariant forall s :: 0 <= s < si ==> score[s] != NO_OUTPUT && bbox[s] != NO_OUTPUT && kps[s] != NO_OUTPUT
    {
      if score[si] == NO_OUTPUT || bbox[si] == NO_OUTPUT || kps[si] == NO_OUTPUT {
        return false;
      }
      si := si + 1;
    }
    ok := true;
  }

  /** Of the outputs with this shape, i is the last. */
  predicate IsLast(shapes: seq<seq<int>>, i: int, si: nat, columns: int)
    requires si < 3
  {
    HasShape(shapes, i, si, columns) && forall k :: i < k < |shapes| ==> !Fits(shapes[k], si, columns)
  }

  /** The outputs are understood exactly if all nine shapes occur, whatever else
      there is, and of several outputs of one shape the last is taken. */
  lemma CategorizedIs(shapes: seq<seq<int>>)
    ensures Categorized(shapes).Some? <==> forall si :: 0 <= si < 3 ==>
              Present(shapes, si, 1) && Present(shapes, si, 4) && Present(shapes, si, 10)
    ensures Categorized(shapes).Some? ==> forall si :: 0 <= si < 3 ==>
              var h := Categorized(shapes).value;
              && IsLast(shapes, h.scores[si], si, 1) && IsLast(shapes, h.bboxes[si], si, 4)
              && IsLast(shapes, h.kpss[si], si, 10)
  {
    KindFound(shapes, 1);
    KindFound(shapes, 4);
    KindFound(shapes, 10);
  }

  lemma KindFound(shapes: seq<seq<int>>, columns: int)
    ensures var at := Lasts(shapes, |shapes|, columns);
            && (NO_OUTPUT !in at <==> forall si :: 0 <= si < 3 ==> Present(shapes, si, columns))
            && (NO_OUTPUT !in at ==> forall si :: 0 <= si < 3 ==> IsLast(shapes, at[si], si, columns))
  {
    var at := Lasts(shapes, |shapes|, columns);
    forall si | 0 <= si < 3
      ensures Present(shapes, si, columns) <==> at[si] != NO_OUTPUT
      ensures at[si] != NO_OUTPUT ==> IsLast(shapes, at[si], si, columns)
    {
      LastPresent(shapes, si, columns);
    }
    assert NO_OUTPUT in at <==> at[0] == NO_OUTPUT || at[1] == NO_OUTPUT || at[2] == NO_OUTPUT;
  }

  lemma LastPresent(shapes: seq<seq<int>>, si: nat, columns: int)
    requires si < 3
    ensures Lasts(shapes, |shapes|, columns)[si] == Last(shapes, |shapes|, si, columns)
    ensures Present(shapes, si, columns) <==> Last(shapes, |shapes|, si, columns) != NO_OUTPUT
  {
    var i := Last(shapes, |shapes|, si, columns);
    assert i != NO_OUTPUT ==> HasShape(shapes, i, si, columns);
  }

  /** The slot of an output with a head's layout, -1 for any other. */
  function Slot(shape: seq<int>): (si: int)
    ensures -1 <= si < 3
    ensures forall s :: 0 <= s < 3 ==> (Rows(shape) == Cells(s) <==> si == s)
  {
    if Rows(shape) == 12800 then 0 else if Rows(shape) == 3200 then 1 else if Rows(shape) == 800 then 2 else -1
  }

  lemma LastsNext(shapes: seq<seq<int>>, i: nat, columns: int)
    requires i < |shapes|
    ensures var was, si := Lasts(shapes, i, columns), Slot(shapes[i]);
            Lasts(shapes, i + 1, columns) ==
            if si >= 0 && Columns(shapes[i]) == columns then was[si := i] else was
  {
  }

  /** One turn of the loop over the outputs. */
  method Note(shapes: seq<seq<int>>, i: nat, score: seq<int>, bbox: seq<int>, kps: seq<int>)
    returns (score': seq<int>, bbox': seq<int>, kps': seq<int>)
    requires i < |shapes|
    requires score == Lasts(shapes, i, 1) && bbox == Lasts(shapes, i, 4) && kps == Lasts(shapes, i, 10)
    ensures score' == Lasts(shapes, i + 1, 1) && bbox' == Lasts(shapes, i + 1, 4) && kps' == Lasts(shapes, i + 1, 10)
  {
    LastsNext(shapes, i, 1);
    LastsNext(shapes, i, 4);
    LastsNext(shapes, i, 10);
    score', bbox', kps' := score, bbox, kps;
    var si, last := SlotAndColumns(shapes[i]);
    if si == -1 {
      return;
    }
    if last == 1 {
      score' := score[si := i];
    } else if last == 4 {
      bbox' := bbox[si := i];
    } else if last == 10 {
      kps' := kps[si := i];
    }
  }

  method SlotAndColumns(shape: seq<int>) returns (si: int, last: int)
    ensures si == Slot(shape) && (si != -1 ==> last == Columns(shape))
  {
    var n;
    n, last := -1, -1;
    if |shape| == 2 {
      n, last := shape[0], shape[1];
    } else if |shape| == 3 && shape[0] == 1 {
      n, last := shape[1], shape[2];
    } else {
      return -1, -1;
    }
    si := -1;
    if n == 80 * 80 * ANCHORS {
      si := 0;
    } else if n == 40 * 40 * ANCHORS {
      si := 1;
    } else if n == 20 * 20 * ANCHORS {
      si := 2;
    }
  }

  // --------------------------------------------------------------- anchors

  function Index(side: nat, y: nat, x: nat, a: nat): nat { (y * side + x) * ANCHORS + a }

  /** Row, column and anchor of an index. */
  function RowOf(side: nat, i: nat): nat
    requires side > 0
  {
    i / ANCHORS / side
  }

  function ColumnOf(side: nat, i: nat): nat
    requires side > 0
  {
    i / ANCHORS % side
  }

  lemma Product(d: nat, a: nat, b: nat)
    requires a <= b
    ensures d * a <= d * b
  {
  }

  lemma Multiple(d: nat, e: int)
    ensures e >= 1 ==> d * e >= d
    ensures e <= -1 ==> d * e + d <= 0
  {
  }

  lemma DivMod(q: nat, d: nat, r: nat)
    requires r < d
    ensures (q * d + r) / d == q && (q * d + r) % d == r
  {
    var n := q * d + r;
    var k, m := n / d, n % d;
    assert n == d * k + m && 0 <= m < d;
    assert d * (q - k) == m - r by {
      assert d * (q - k) == d * q - d * k;
    }
    Multiple(d, q - k);
  }

  lemma CellBelow(side: nat, y: nat, x: nat)
    requires y < side && x < side
    ensures y * side + x < side * side
  {
    Product(side, y + 1, side);
    assert side * (y + 1) == y * side + side;
  }

  /** Cells and indices of a head correspond one to one: the index is in bounds,
      it determines row, column and anchor, and every index below the number of
      cells is one. */
  lemma IndexCorresponds(side: nat, y: nat, x: nat, a: nat)
    requires y < side && x < side && a < ANCHORS
    ensures Index(side, y, x, a) < side * side * ANCHORS
    ensures RowOf(side, Index(side, y, x, a)) == y && ColumnOf(side, Index(side, y, x, a)) == x
    ensures Index(side, y, x, a) % ANCHORS == a
  {
    CellBelow(side, y, x);
    DivMod(y * side + x, ANCHORS, a);
    DivMod(y, side, x);
  }

  lemma IndexCovers(side: nat, i: nat)
    requires i < side * side * ANCHORS
    ensures side > 0 && RowOf(side, i) < side && ColumnOf(side, i) < side
    ensures i == Index(side, RowOf(side, i), ColumnOf(side, i), i % ANCHORS)
  {
  }

  /** Indices run through the cells row by row, and through a cell's anchors. */
  lemma IndexOrder(side: nat, y: nat, x: nat, a: nat, y': nat, x': nat, a': nat)
    requires x < side && a < ANCHORS && x' < side && a' < ANCHORS
    ensures Index(side, y, x, a) < Index(side, y', x', a') <==>
            y < y' || (y == y' && (x < x' || (x == x' && a < a')))
  {
    if y < y' {
      RowsFirst(side, y, x, y', x');
    } else if y' < y {
      RowsFirst(side, y', x', y, x);
    }
  }

  lemma RowsFirst(side: nat, y: nat, x: nat, y': nat, x': nat)
    requires y < y' && x < side
    ensures y * side + x < y' * side + x'
  {
    Product(side, y + 1, y');
    assert side * (y + 1) == y * side + side;
  }

  // ---------------------------------------------------------------- decode

  /** The three tensors of one stride. */
  datatype Head = Head(side: nat, stride: real, scores: seq<real>, bboxes: seq<real>, kpss: seq<real>)

  predicate Shaped(h: Head) {
    var n := h.side * h.side * ANCHORS;
    h.side > 0 && |h.scores| == n && |h.bboxes| == n * 4 && |h.kpss| == n * 10
  }

  /** h is made of the tensors that were taken for stride number si. */
  predicate Wired(h: Head, shapes: seq<seq<int>>, out: Heads, si: nat)
    requires si < 3 && Categorized(shapes) == Some(out)
  {
    CategorizedIs(shapes);
    && h.side == Side(si) && h.stride == Stride(si)
    && |h.scores| == Size(shapes[out.scores[si]]) && |h.bboxes| == Size(shapes[out.bboxes[si]])
    && |h.kpss| == Size(shapes[out.kpss[si]])
  }

  /** How many entries a tensor of this shape has. */
  function Size(shape: seq<int>): int { Rows(shape) * Columns(shape) }

  /** Once the outputs are understood, decoding reads no tensor out of bounds, and
      the cells' centres lie on the canvas. */
  lemma WiredShaped(h: Head, shapes: seq<seq<int>>, out: Heads, si: nat)
    requires si < 3 && Categorized(shapes) == Some(out) && Wired(h, shapes, out, si)
    ensures Shaped(h) && forall cell :: 0 <= cell < h.side ==> 0.0 < Centre(h, cell) < INPUT as real
  {
    CategorizedIs(shapes);
  }

  /** The cells of a stride tile the canvas, and centres are their middles. */
  lemma CentresTile(h: Head, si: nat, cell: nat)
    requires si < 3 && h.side == Side(si) && h.stride == Stride(si) && cell < h.side
    ensures h.side as real * h.stride == INPUT as real
    ensures 2.0 * Centre(h, cell) == cell as real * h.stride + (cell + 1) as real * h.stride
  {
    StrideTiles(si);
    Middle(cell as real, h.stride);
  }

  lemma StrideTiles(si: nat)
    requires si < 3
    ensures Side(si) as real * Stride(si) == INPUT as real
  {
  }

  lemma Middle(c: real, w: real)
    ensures 2.0 * ((c + 0.5) * w) == c * w + (c + 1.0) * w
  {
  }

  /** cv::Rect2f of two corners. */
  function RectOf(p: Point, q: Point): Rect {
    var x, y := Min(p.x, q.x), Min(p.y, q.y);
    Rect(x, y, Max(p.x, q.x) - x, Max(p.y, q.y) - y)
  }

  function Centre(h: Head, cell: nat): real { (cell as real + 0.5) * h.stride }

  function Landmark(h: Head, g: Letterbox, i: nat, k: nat, cx: real, cy: real): Point
    requires Shaped(h) && i < |h.scores| && k < 5 && g.scale > 0.0
  {
    Remap(g, Point(h.kpss[i * 10 + k * 2] * h.stride + cx, h.kpss[i * 10 + k * 2 + 1] * h.stride + cy))
  }

  /** The corners the four distances of anchor i reach from the centre. */
  function Near(h: Head, i: nat, cx: real, cy: real): Point
    requires Shaped(h) && i < |h.scores|
  {
    Point(cx - h.bboxes[i * 4] * h.stride, cy - h.bboxes[i * 4 + 1] * h.stride)
  }

  function Far(h: Head, i: nat, cx: real, cy: real): Point
    requires Shaped(h) && i < |h.scores|
  {
    Point(cx + h.bboxes[i * 4 + 2] * h.stride, cy + h.bboxes[i * 4 + 3] * h.stride)
  }

  /** The detection of anchor i, at column x and row y. */
  function AnchorAt(h: Head, g: Letterbox, i: nat, x: nat, y: nat): Detection
    requires Shaped(h) && i < |h.scores| && g.scale > 0.0
  {
    var cx, cy := Centre(h, x), Centre(h, y);
    Detection(RectOf(Remap(g, Near(h, i, cx, cy)), Remap(g, Far(h, i, cx, cy))),
              [Landmark(h, g, i, 0, cx, cy), Landmark(h, g, i, 1, cx, cy), Landmark(h, g, i, 2, cx, cy),
               Landmark(h, g, i, 3, cx, cy), Landmark(h, g, i, 4, cx, cy)],
              h.scores[i])
  }

  function AnchorBox(h: Head, g: Letterbox, i: nat): Detection
    requires Shaped(h) && i < |h.scores| && g.scale > 0.0
  {
    AnchorAt(h, g, i, ColumnOf(h.side, i), RowOf(h.side, i))
  }

  /** The first n anchors of a head, those that score high enough, in order. */
  function Passing(h: Head, thr: real, g: Letterbox, n: nat): seq<Detection>
    requires Shaped(h) && n <= |h.scores| && g.scale > 0.0
  {
    if n == 0 then []
    else Passing(h, thr, g, n - 1) + if h.scores[n - 1] < thr then [] else [AnchorBox(h, g, n - 1)]
  }

  function AllPassing(heads: seq<Head>, thr: real, g: Letterbox): seq<Detection>
    requires (forall h :: h in heads ==> Shaped(h)) && g.scale > 0.0
  {
    if heads == [] then []
    else
      var last := heads[|heads| - 1];
      AllPassing(heads[..|heads| - 1], thr, g) + Passing(last, thr, g, |last.scores|)
  }

  method Decode(heads: seq<Head>, thr: real, g: Letterbox) returns (dets: seq<Detection>)
    requires (forall h :: h in heads ==> Shaped(h)) && g.scale > 0.0
    ensures dets == AllPassing(heads, thr, g)
  {
    dets := [];
    var si := 0;
    while si < |heads|
      invariant 0 <= si <= |heads| && dets == AllPassing(heads[..si], thr, g)
    {
      var more := DecodeHead(heads[si], thr, g);
      assert heads[..si + 1][..si] == heads[..si];
      dets := dets + more;
      si := si + 1;
    }
    assert heads[..|heads|] == heads;
  }

  method DecodeHead(h: Head, thr: real, g: Letterbox) returns (dets: seq<Detection>)
    requires Shaped(h) && g.scale > 0.0
    ensures dets == Passing(h, thr, g, |h.scores|)
  {
    dets := [];
    var side := h.side;
    var y := 0;
    while y < side
      invariant 0 <= y <= side
      invariant Index(side, y, 0, 0) <= |h.scores| && dets == Passing(h, thr, g, Index(side, y, 0, 0))
    {
      var x := 0;
      while x < side
        invariant 0 <= x <= side
        invariant Index(side, y, x, 0) <= |h.scores| && dets == Passing(h, thr, g, Index(side, y, x, 0))
      {
        var a := 0;
        while a < ANCHORS
          invariant 0 <= a <= ANCHORS
          invariant Index(side, y, x, a) <= |h.scores| && dets == Passing(h, thr, g, Index(side, y, x, a))
        {
          var i := (y * side + x) * ANCHORS + a;
          IndexCorresponds(side, y, x, a);
          if h.scores[i] < thr {
            a := a + 1;
            continue;
          }
          dets := dets + [AnchorAt(h, g, i, x, y)];
          a := a + 1;
        }
        NextCell(side, y, x);
        x := x + 1;
      }
      assert Index(side, y, side, 0) == Index(side, y + 1, 0, 0);
      y := y + 1;
    }
  }

  lemma NextCell(side: nat, y: nat, x: nat)
    ensures Index(side, y, x, ANCHORS) == Index(side, y, x + 1, 0)
    ensures y < side && x < side ==> Index(side, y, x + 1, 0) <= side * side * ANCHORS
  {
    if y < side && x < side {
      IndexCorresponds(side, y, x, 1);
    }
  }

  // ------------------------------------------------------- what it decodes

  /** The indices of the anchors that pass, in order. */
  function Picks(h: Head, thr: real, n: nat): (ids: seq<nat>)
    requires n <= |h.scores|
    ensures forall k :: 0 <= k < |ids| ==> ids[k] < n && h.scores[ids[k]] >= thr
    ensures forall j, k :: 0 <= j < k < |ids| ==> ids[j] < ids[k]
  {
    if n == 0 then [] else Picks(h, thr, n - 1) + if h.scores[n - 1] < thr then [] else [n - 1]
  }

  lemma {:induction false} PicksAll(h: Head, thr: real, n: nat, i: nat)
    requires i < n <= |h.scores| && h.scores[i] >= thr
    ensures i in Picks(h, thr, n)
    decreases n
  {
    if i < n - 1 {
      PicksAll(h, thr, n - 1, i);
    }
  }

  lemma {:induction false} PassingIs(h: Head, thr: real, g: Letterbox, n: nat)
    requires Shaped(h) && n <= |h.scores| && g.scale > 0.0
    ensures var ids := Picks(h, thr, n);
            && |Passing(h, thr, g, n)| == |ids|
            && forall k :: 0 <= k < |ids| ==> Passing(h, thr, g, n)[k] == AnchorBox(h, g, ids[k])
    decreases n
  {
    if n > 0 {
      PassingIs(h, thr, g, n - 1);
    }
  }

  /** A head decodes to the boxes of exactly those cells (row, column, anchor) that
      score at least the threshold, each once, in scan order. */
  lemma DecodesExactly(h: Head, thr: real, g: Letterbox)
    requires Shaped(h) && g.scale > 0.0
    ensures var dets, ids := Passing(h, thr, g, |h.scores|), Picks(h, thr, |h.scores|);
            && |dets| == |ids|
            && (forall k :: 0 <= k < |ids| ==>
                  && RowOf(h.side, ids[k]) < h.side && ColumnOf(h.side, ids[k]) < h.side
                  && dets[k].score == h.scores[ids[k]]
                  && dets[k] == AnchorAt(h, g, ids[k], ColumnOf(h.side, ids[k]), RowOf(h.side, ids[k])))
            && (forall y, x, a {:trigger Index(h.side, y, x, a)} :: 0 <= y < h.side && 0 <= x < h.side && 0 <= a < ANCHORS ==>
                  && Index(h.side, y, x, a) < |h.scores|
                  && (Index(h.side, y, x, a) in ids <==> h.scores[Index(h.side, y, x, a)] >= thr))
  {
    var ids := Picks(h, thr, |h.scores|);
    PassingIs(h, thr, g, |h.scores|);
    forall k | 0 <= k < |ids| ensures RowOf(h.side, ids[k]) < h.side && ColumnOf(h.side, ids[k]) < h.side {
      IndexCovers(h.side, ids[k]);
    }
    forall y: nat, x: nat, a: nat | y < h.side && x < h.side && a < ANCHORS
      ensures Index(h.side, y, x, a) < |h.scores|
      ensures Index(h.side, y, x, a) in ids <==> h.scores[Index(h.side, y, x, a)] >= thr
    {
      IndexCorresponds(h.side, y, x, a);
      if h.scores[Index(h.side, y, x, a)] >= thr {
        PicksAll(h, thr, |h.scores|, Index(h.side, y, x, a));
      }
    }
  }

  /** Whatever the network says, boxes have no negative size, landmarks are five,
      and every score passes: what nms and its callers rely on. */
  lemma {:induction false} DecodesProper(heads: seq<Head>, thr: real, g: Letterbox)
    requires (forall h :: h in heads ==> Shaped(h)) && g.scale > 0.0
    ensures forall d :: d in AllPassing(heads, thr, g) ==> Proper(d.box) && |d.kps| == 5 && d.score >= thr
    decreases |heads|
  {
    if heads != [] {
      var last := heads[|heads| - 1];
      DecodesProper(heads[..|heads| - 1], thr, g);
      PassingIs(last, thr, g, |last.scores|);
    }
  }

  /** The four distances of anchor i say, in strides, how far the canvas corners p
      and q are from the centre of its cell. */
  predicate Predicts(h: Head, i: nat, p: Point, q: Point)
    requires Shaped(h) && i < |h.scores|
  {
    var cx, cy := Centre(h, ColumnOf(h.side, i)), Centre(h, RowOf(h.side, i));
    && h.bboxes[i * 4] * h.stride == cx - p.x && h.bboxes[i * 4 + 1] * h.stride == cy - p.y
    && h.bboxes[i * 4 + 2] * h.stride == q.x - cx && h.bboxes[i * 4 + 3] * h.stride == q.y - cy
  }

  lemma CornersBack(g: Letterbox, box: Rect)
    requires g.scale > 0.0 && Proper(box)
    ensures var p, q := Place(g, Point(box.x, box.y)), Place(g, Point(box.x + box.w, box.y + box.h));
            RectOf(Remap(g, p), Remap(g, q)) == box
  {
    RemapInverts(g, Point(box.x, box.y));
    RemapInverts(g, Point(box.x + box.w, box.y + box.h));
  }

  /** From distances back to the corner they were measured to. */
  lemma Measured(c: real, d: real, x: real)
    ensures d == c - x ==> c - d == x
    ensures d == x - c ==> c + d == x
  {
  }

  lemma PredictedNear(h: Head, i: nat, p: Point, cx: real, cy: real)
    requires Shaped(h) && i < |h.scores|
    requires h.bboxes[i * 4] * h.stride == cx - p.x && h.bboxes[i * 4 + 1] * h.stride == cy - p.y
    ensures Near(h, i, cx, cy) == p
  {
    Measured(cx, h.bboxes[i * 4] * h.stride, p.x);
    Measured(cy, h.bboxes[i * 4 + 1] * h.stride, p.y);
  }

  lemma PredictedFar(h: Head, i: nat, q: Point, cx: real, cy: real)
    requires Shaped(h) && i < |h.scores|
    requires h.bboxes[i * 4 + 2] * h.stride == q.x - cx && h.bboxes[i * 4 + 3] * h.stride == q.y - cy
    ensures Far(h, i, cx, cy) == q
  {
    Measured(cx, h.bboxes[i * 4 + 2] * h.stride, q.x);
    Measured(cy, h.bboxes[i * 4 + 3] * h.stride, q.y);
  }

  /** A network that predicts a box of the letterboxed frame exactly is decoded to
      that box of the original frame. */
  lemma DecodeInverts(h: Head, g: Letterbox, i: nat, box: Rect)
    requires Shaped(h) && i < |h.scores| && g.scale > 0.0 && Proper(box)
    requires Predicts(h, i, Place(g, Point(box.x, box.y)), Place(g, Point(box.x + box.w, box.y + box.h)))
    ensures AnchorBox(h, g, i).box == box
  {
    var p, q := Place(g, Point(box.x, box.y)), Place(g, Point(box.x + box.w, box.y + box.h));
    PredictedNear(h, i, p, Centre(h, ColumnOf(h.side, i)), Centre(h, RowOf(h.side, i)));
    PredictedFar(h, i, q, Centre(h, ColumnOf(h.side, i)), Centre(h, RowOf(h.side, i)));
    CornersBack(g, box);
  }

  /** The offsets of anchor i for landmark k say, in strides, how far the canvas
      point p is from the centre of its cell. */
  predicate PredictsLandmark(h: Head, i: nat, k: nat, p: Point)
    requires Shaped(h) && i < |h.scores| && k < 5
  {
    && h.kpss[i * 10 + k * 2] * h.stride == p.x - Centre(h, ColumnOf(h.side, i))
    && h.kpss[i * 10 + k * 2 + 1] * h.stride == p.y - Centre(h, RowOf(h.side, i))
  }

  /** A network that predicts a landmark of the letterboxed frame exactly is decoded
      to that landmark of the original frame. */
  lemma LandmarksInvert(h: Head, g: Letterbox, i: nat, k: nat, mark: Point)
    requires Shaped(h) && i < |h.scores| && k < 5 && g.scale > 0.0
    requires PredictsLandmark(h, i, k, Place(g, mark))
    ensures |AnchorBox(h, g, i).kps| == 5 && AnchorBox(h, g, i).kps[k] == mark
  {
    var cx, cy := Centre(h, ColumnOf(h.side, i)), Centre(h, RowOf(h.side, i));
    var p := Place(g, mark);
    Measured(cx, h.kpss[i * 10 + k * 2] * h.stride, p.x);
    Measured(cy, h.kpss[i * 10 + k * 2 + 1] * h.stride, p.y);
    assert Landmark(h, g, i, k, cx, cy) == Remap(g, p);
    RemapInverts(g, mark);
  }

  /** d is the detection of an anchor of h that scores at least thr. */
  predicate FromAnchor(h: Head, thr: real, g: Letterbox, d: Detection)
    requires Shaped(h) && g.scale > 0.0
  {
    exists i :: 0 <= i < |h.scores| && h.scores[i] >= thr && d == AnchorBox(h, g, i)
  }

  lemma InPassing(h: Head, thr: real, g: Letterbox, d: Detection)
    requires Shaped(h) && g.scale > 0.0
    ensures d in Passing(h, thr, g, |h.scores|) <==> FromAnchor(h, thr, g, d)
  {
    var ids := Picks(h, thr, |h.scores|);
    PassingIs(h, thr, g, |h.scores|);
    if i :| 0 <= i < |h.scores| && h.scores[i] >= thr && d == AnchorBox(h, g, i) {
      PicksAll(h, thr, |h.scores|, i);
      var k :| 0 <= k < |ids| && ids[k] == i;
      assert Passing(h, thr, g, |h.scores|)[k] == d;
    }
  }

  /** All strides are decoded: exactly the detections of anchors of any of them that
      score at least the threshold are reported. */
  lemma {:induction false} DecodesAll(heads: seq<Head>, thr: real, g: Letterbox, d: Detection)
    requires (forall h :: h in heads ==> Shaped(h)) && g.scale > 0.0
    ensures d in AllPassing(heads, thr, g) <==> exists h :: h in heads && FromAnchor(h, thr, g, d)
    decreases |heads|
  {
    if heads != [] {
      var n := |heads| - 1;
      DecodesAll(heads[..n], thr, g, d);
      InPassing(heads[n], thr, g, d);
      assert heads == heads[..n] + [heads[n]];
    }
  }
}
