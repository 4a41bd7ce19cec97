/** The brush tool: a scratch buffer of marks the size of the canvas, a snapshot of the
    layer taken when a stroke starts, Bresenham lines between cursor samples, and the
    compositing rule that turns snapshot plus marks into the layer shown while painting. */
module Brush {
  import opened Pixels

  datatype BrushMode = Pixel | Line

  // ---------------------------------------------------------------------------
  // Bresenham's all-octant line, as a pure sequence of points
  // ---------------------------------------------------------------------------

  /** The quantities a line fixes once: its end, dx = |end.x - start.x|,
      dy = -|end.y - start.y| and the step directions sx, sy. */
  datatype Segment = Segment(end: Point, dx: int, dy: int, sx: int, sy: int)

  /** The direction of travel from a to b along one axis (-1 when they are equal). */
  function Dir(a: int, b: int): int {
    if a < b then 1 else -1
  }

  function SegmentOf(start: Point, end: Point): Segment {
    Segment(end, Abs(end.x - start.x), -(Abs(end.y - start.y) as int), Dir(start.x, end.x), Dir(start.y, end.y))
  }

  /** How far x still is from the end, measured in the direction of travel. */
  function Rx(g: Segment, x: int): int {
    if g.sx == 1 then g.end.x - x else x - g.end.x
  }

  function Ry(g: Segment, y: int): int {
    if g.sy == 1 then g.end.y - y else y - g.end.y
  }

  /** The loop state (x, y, err) of a line still on its way: both remaining distances
      lie within the segment, and the error term is the one they determine. */
  predicate Tracking(g: Segment, x: int, y: int, err: int) {
    && (g.sx == 1 || g.sx == -1) && (g.sy == 1 || g.sy == -1)
    && 0 <= Rx(g, x) <= g.dx
    && 0 <= Ry(g, y) <= -g.dy
    && err == ErrOf(g.dx, -g.dy, Rx(g, x), Ry(g, y))
  }

  /** One pass of the loop after the pixel is plotted: step x when 2*err > dy,
      step y when 2*err < dx, both tests on the error before either update. */
  function Advance(g: Segment, x: int, y: int, err: int): (int, int, int) {
    var e2 := 2 * err;
    var x1 := if e2 > g.dy then x + g.sx else x;
    var err1 := if e2 > g.dy then err + g.dy else err;
    var y1 := if e2 < g.dx then y + g.sy else y;
    var err2 := if e2 < g.dx then err1 + g.dx else err1;
    (x1, y1, err2)
  }

  /** A move of one pixel in x, in y or in both, each toward the end of the line. */
  predicate Step(p: Point, q: Point, sx: int, sy: int) {
    && (q.x == p.x || q.x == p.x + sx)
    && (q.y == p.y || q.y == p.y + sy)
    && p != q
  }

  /** The move from the k-th point of r to the next is a step. */
  predicate StepAt(r: seq<Point>, k: int, sx: int, sy: int)
    requires 0 <= k < |r| - 1
  {
    Step(r[k], r[k + 1], sx, sy)
  }

  lemma StartTracks(start: Point, end: Point)
    ensures var g := SegmentOf(start, end);
      && Tracking(g, start.x, start.y, g.dx + g.dy)
      && Rx(g, start.x) == g.dx && Ry(g, start.y) == -g.dy
  {
    var g := SegmentOf(start, end);
    TimesIsProduct(-g.dy, g.dx);
    TimesIsProduct(g.dx, -g.dy);
  }

  /** a*n as repeated addition: the error bookkeeping below is stated with it so that
      the loop's reasoning stays within linear arithmetic. */
  function Times(a: int, n: nat): int {
    if n == 0 then 0 else Times(a, n - 1) + a
  }

  lemma {:induction false} TimesIsProduct(a: int, n: nat)
    ensures Times(a, n) == a * n
  {
    if n > 0 {
      TimesIsProduct(a, n - 1);
    }
  }

  /** The error term determined by the remaining distances rx, ry of a segment with
      dx = dX and dy = -dY. */
  function ErrOf(dX: int, dY: int, rx: nat, ry: nat): int {
    Times(dY, rx) - Times(dX, ry) + dX - dY
  }

  /** With x already at the end the error is at most -dY, so x is not stepped. */
  lemma XDoneBound(dX: int, dY: int, ry: nat)
    requires 0 <= dX && 0 <= dY && 1 <= ry
    ensures 2 * ErrOf(dX, dY, 0, ry) <= -dY
  {
    TimesIsProduct(dX, ry);
    MulLe(1, ry, dX);
  }

  /** With y already at the end the error is at least dX, so y is not stepped. */
  lemma YDoneBound(dX: int, dY: int, rx: nat)
    requires 0 <= dX && 0 <= dY && 1 <= rx
    ensures 2 * ErrOf(dX, dY, rx, 0) >= dX
  {
    TimesIsProduct(dY, rx);
    MulLe(1, rx, dY);
  }

  /** A step in x adds dy = -dY to the error, a step in y adds dx = dX. */
  lemma ErrShift(dX: int, dY: int, rx: nat, ry: nat)
    ensures rx >= 1 ==> ErrOf(dX, dY, rx - 1, ry) == ErrOf(dX, dY, rx, ry) - dY
    ensures ry >= 1 ==> ErrOf(dX, dY, rx, ry - 1) == ErrOf(dX, dY, rx, ry) + dX
    ensures rx >= 1 && ry >= 1 ==> ErrOf(dX, dY, rx - 1, ry - 1) == ErrOf(dX, dY, rx, ry) - dY + dX
  {
  }

  /** Away from the end, a pass never overshoots a coordinate already reached, moves at
      least one pixel, and keeps the error term in step with the remaining distances. */
  lemma AdvanceTracks(g: Segment, x: int, y: int, err: int)
    requires Tracking(g, x, y, err)
    requires x != g.end.x || y != g.end.y
    ensures var (x1, y1, err1) := Advance(g, x, y, err);
      && Tracking(g, x1, y1, err1)
      && Rx(g, x1) + Ry(g, y1) < Rx(g, x) + Ry(g, y)
      && Step(Point(x, y), Point(x1, y1), g.sx, g.sy)
  {
    var dX, dY := g.dx, -g.dy;
    var rx, ry := Rx(g, x), Ry(g, y);
    assert err == ErrOf(dX, dY, rx, ry);
    var xStep, yStep := 2 * err > g.dy, 2 * err < g.dx;
    if rx == 0 {
      XDoneBound(dX, dY, ry);
    }
    if ry == 0 {
      YDoneBound(dX, dY, rx);
    }
    ErrShift(dX, dY, rx, ry);
  }

  /** The points the loop plots from state (x, y, err) on, the last being the end. */
  function LineFrom(g: Segment, x: int, y: int, err: int): (r: seq<Point>)
    requires Tracking(g, x, y, err)
    ensures |r| >= 1 && r[0] == Point(x, y) && r[|r| - 1] == g.end
    decreases Rx(g, x) + Ry(g, y)
  {
    if x == g.end.x && y == g.end.y then
      [Point(x, y)]
    else
      AdvanceTracks(g, x, y, err);
      var (x1, y1, err1) := Advance(g, x, y, err);
      [Point(x, y)] + LineFrom(g, x1, y1, err1)
  }

  /** From any loop state on, each plotted pixel is one step on from the one before. */
  lemma {:induction false} LineFromSteps(g: Segment, x: int, y: int, err: int)
    requires Tracking(g, x, y, err)
    ensures forall k :: 0 <= k < |LineFrom(g, x, y, err)| - 1 ==> StepAt(LineFrom(g, x, y, err), k, g.sx, g.sy)
    decreases Rx(g, x) + Ry(g, y)
  {
    if x != g.end.x || y != g.end.y {
      AdvanceTracks(g, x, y, err);
      var (x1, y1, err1) := Advance(g, x, y, err);
      LineFromSteps(g, x1, y1, err1);
      var r, tail := LineFrom(g, x, y, err), LineFrom(g, x1, y1, err1);
      assert r == [Point(x, y)] + tail;
      forall k | 0 <= k < |r| - 1
        ensures StepAt(r, k, g.sx, g.sy)
      {
        if k > 0 {
          assert StepAt(tail, k - 1, g.sx, g.sy);
        }
      }
    }
  }

  /** From any loop state on, no plotted pixel is farther from the end, in either axis,
      than the state's own position, nor beyond the end. */
  lemma {:induction false} LineFromBox(g: Segment, x: int, y: int, err: int)
    requires Tracking(g, x, y, err)
    ensures forall p :: p in LineFrom(g, x, y, err) ==>
      0 <= Rx(g, p.x) <= Rx(g, x) && 0 <= Ry(g, p.y) <= Ry(g, y)
    decreases Rx(g, x) + Ry(g, y)
  {
    if x != g.end.x || y != g.end.y {
      AdvanceTracks(g, x, y, err);
      var (x1, y1, err1) := Advance(g, x, y, err);
      LineFromBox(g, x1, y1, err1);
      assert LineFrom(g, x, y, err) == [Point(x, y)] + LineFrom(g, x1, y1, err1);
    }
  }

  /** The pixels `draw_line` plots between two points, in plotting order. */
  function LinePoints(start: Point, end: Point): (r: seq<Point>)
    ensures |r| >= 1 && r[0] == start && r[|r| - 1] == end
  {
    var g := SegmentOf(start, end);
    StartTracks(start, end);
    LineFrom(g, start.x, start.y, g.dx + g.dy)
  }

  /** The loop state after n passes from (x, y, err); once at the end it stays there. */
  function Walk(g: Segment, x: int, y: int, err: int, n: nat): (int, int, int)
    decreases n
  {
    if n == 0 || (x == g.end.x && y == g.end.y) then (x, y, err)
    else
      var (x1, y1, err1) := Advance(g, x, y, err);
      Walk(g, x1, y1, err1, n - 1)
  }

  /** After n passes, short of the last point, the loop is still tracking and the
      points it has yet to plot are the line from its n-th point on. */
  lemma {:induction false} WalkAlong(g: Segment, x: int, y: int, err: int, n: nat)
    requires Tracking(g, x, y, err) && n < |LineFrom(g, x, y, err)|
    ensures var (xn, yn, en) := Walk(g, x, y, err, n);
      Tracking(g, xn, yn, en) && LineFrom(g, xn, yn, en) == LineFrom(g, x, y, err)[n..]
    decreases n
  {
    if n > 0 {
      AdvanceTracks(g, x, y, err);
      var (x1, y1, err1) := Advance(g, x, y, err);
      assert LineFrom(g, x, y, err) == [Point(x, y)] + LineFrom(g, x1, y1, err1);
      WalkAlong(g, x1, y1, err1, n - 1);
      assert LineFrom(g, x, y, err)[n..] == LineFrom(g, x1, y1, err1)[n - 1..];
    }
  }

  /** A pass short of the end is one more application of Advance. */
  lemma {:induction false} WalkOneMore(g: Segment, x: int, y: int, err: int, n: nat)
    ensures var (xn, yn, en) := Walk(g, x, y, err, n);
      (xn != g.end.x || yn != g.end.y) ==> Walk(g, x, y, err, n + 1) == Advance(g, xn, yn, en)
    decreases n
  {
    if n > 0 && (x != g.end.x || y != g.end.y) {
      var (x1, y1, err1) := Advance(g, x, y, err);
      WalkOneMore(g, x1, y1, err1, n - 1);
    }
  }

  /** Plotting one more point that fits is one more colour write. */
  lemma PlotAllSnoc(s: seq<byte>, pts: seq<Point>, p: Point, width: int, c: Rgba)
    requires 0 <= Offset(p, width) && Offset(p, width) + 4 <= |s|
    ensures PlotAll(s, pts + [p], width, c) == SetColor(PlotAll(s, pts, width, c), Offset(p, width), c)
  {
    assert (pts + [p])[..|pts|] == pts;
  }

  /** The `draw_line` loop at its head after n passes along `line` from start to end:
      the state is the one n passes reach, every point of the line fits in buffers of
      |s0| bytes, and writing the first n points over `s0` gives `buf`. */
  predicate Plotting(start: Point, end: Point, line: seq<Point>, x: int, y: int, err: int, n: nat,
                     s0: seq<byte>, buf: seq<byte>, width: int, c: Rgba) {
    var g := SegmentOf(start, end);
    && (x, y, err) == Walk(g, start.x, start.y, g.dx + g.dy, n)
    && n < |line|
    && Fits(line, width, |s0|)
    && buf == PlotAll(s0, line[..n], width, c)
  }

  lemma PlottingStarts(start: Point, end: Point, s0: seq<byte>, width: int, c: Rgba)
    requires Fits(LinePoints(start, end), width, |s0|)
    ensures var g := SegmentOf(start, end);
      Plotting(start, end, LinePoints(start, end), start.x, start.y, g.dx + g.dy, 0, s0, s0, width, c)
  {
  }

  /** The state n passes into a line is at its n-th point, and is at the end exactly
      when that point is the last. */
  lemma WalkOnLine(start: Point, end: Point, x: int, y: int, err: int, n: nat)
    requires var g := SegmentOf(start, end);
      (x, y, err) == Walk(g, start.x, start.y, g.dx + g.dy, n) && n < |LinePoints(start, end)|
    ensures LinePoints(start, end)[n] == Point(x, y)
    ensures (x == end.x && y == end.y) <==> n + 1 == |LinePoints(start, end)|
  {
    var g := SegmentOf(start, end);
    StartTracks(start, end);
    WalkAlong(g, start.x, start.y, g.dx + g.dy, n);
    var rest := LineFrom(g, x, y, err);
    assert LinePoints(start, end)[n] == rest[0];
    if x != end.x || y != end.y {
      AdvanceTracks(g, x, y, err);
      var (x1, y1, err1) := Advance(g, x, y, err);
      assert rest == [Point(x, y)] + LineFrom(g, x1, y1, err1);
    }
  }

  /** One pass of the loop: the pixel at (x, y) is the line's n-th point and fits;
      writing it either completes the line (at the end) or leads to the loop head after
      n + 1 passes. */
  lemma PlottingStep(start: Point, end: Point, line: seq<Point>, x: int, y: int, err: int, n: nat,
                     s0: seq<byte>, buf: seq<byte>, width: int, c: Rgba)
    requires line == LinePoints(start, end)
    requires Plotting(start, end, line, x, y, err, n, s0, buf, width, c)
    ensures 0 <= Offset(Point(x, y), width) && Offset(Point(x, y), width) + 4 <= |buf|
    ensures x == end.x && y == end.y ==>
      SetColor(buf, Offset(Point(x, y), width), c) == PlotAll(s0, line, width, c)
    ensures x != end.x || y != end.y ==>
      var (x1, y1, err1) := Advance(SegmentOf(start, end), x, y, err);
      Plotting(start, end, line, x1, y1, err1, n + 1, s0, SetColor(buf, Offset(Point(x, y), width), c), width, c)
  {
    var g := SegmentOf(start, end);
    WalkOnLine(start, end, x, y, err, n);
    TakeSnoc(line, n);
    PlotAllSnoc(s0, line[..n], Point(x, y), width, c);
    if x == end.x && y == end.y {
      assert line[..n + 1] == line;
    } else {
      WalkOneMore(g, start.x, start.y, g.dx + g.dy, n);
    }
  }

  /** A point inside the bounding box of two others. */
  predicate Between(p: Point, a: Point, b: Point) {
    Min(a.x, b.x) <= p.x <= Max(a.x, b.x) && Min(a.y, b.y) <= p.y <= Max(a.y, b.y)
  }

  /** The line runs from start to end one 8-connected pixel at a time, never moving
      away from the end in either axis, and never leaves their bounding box; a line
      from a point to itself is that single point. */
  lemma LinePointsShape(start: Point, end: Point)
    ensures var r := LinePoints(start, end);
      && (start == end ==> r == [start])
      && (forall k :: 0 <= k < |r| - 1 ==>
            StepAt(r, k, Dir(start.x, end.x), Dir(start.y, end.y)))
      && (forall p :: p in r ==> Between(p, start, end))
  {
    var g := SegmentOf(start, end);
    StartTracks(start, end);
    LineFromSteps(g, start.x, start.y, g.dx + g.dy);
    LineFromBox(g, start.x, start.y, g.dx + g.dy);
  }

  /** Both ends on the canvas put the whole line on the canvas. */
  lemma LineInBounds(start: Point, end: Point, width: int, height: int)
    requires InBounds(start, width, height) && InBounds(end, width, height)
    ensures var r := LinePoints(start, end);
      && (forall k :: 0 <= k < |r| ==> InBounds(r[k], width, height))
      && Fits(r, width, width * height * 4)
      && OnRows(r, width)
  {
    LinePointsShape(start, end);
    var r := LinePoints(start, end);
    forall k | 0 <= k < |r|
      ensures InBounds(r[k], width, height)
      ensures 0 <= Offset(r[k], width) && Offset(r[k], width) + 4 <= width * height * 4
    {
      assert r[k] in r;
      LinInBounds(r[k], width, height);
    }
  }

  /** What drawing needs of `LineInBounds`: every point fits in a canvas-sized buffer. */
  lemma LineFits(start: Point, end: Point, width: int, height: int)
    requires InBounds(start, width, height) && InBounds(end, width, height)
    ensures Fits(LinePoints(start, end), width, width * height * 4)
  {
    LineInBounds(start, end, width, height);
  }

  // ---------------------------------------------------------------------------
  // Plotting a sequence of points into a buffer
  // ---------------------------------------------------------------------------

  /** Every point's four bytes lie inside a buffer of `size` bytes. */
  predicate Fits(pts: seq<Point>, width: int, size: int) {
    forall k :: 0 <= k < |pts| ==> 0 <= Offset(pts[k], width) && Offset(pts[k], width) + 4 <= size
  }

  /** Every point has a column inside the row, so distinct points own distinct bytes. */
  predicate OnRows(pts: seq<Point>, width: int) {
    forall k :: 0 <= k < |pts| ==> 0 <= pts[k].x < width
  }

  /** The buffer after writing colour c at each point in turn. A point whose bytes would
      lie outside the buffer writes nothing; lines are only drawn when all of them fit. */
  function PlotAll(s: seq<byte>, pts: seq<Point>, width: int, c: Rgba): (r: seq<byte>)
    ensures |r| == |s|
    decreases |pts|
  {
    if pts == [] then s
    else
      var front := PlotAll(s, pts[..|pts| - 1], width, c);
      var o := Offset(pts[|pts| - 1], width);
      if 0 <= o && o + 4 <= |s| then SetColor(front, o, c) else front
  }

  /** After plotting, a pixel holds c exactly when it is one of the points, and its
      previous colour otherwise. */
  lemma {:induction false} PlotAllPixel(s: seq<byte>, pts: seq<Point>, width: int, c: Rgba, q: Point)
    requires Fits(pts, width, |s|) && OnRows(pts, width)
    requires 0 <= q.x < width && 0 <= Offset(q, width) && Offset(q, width) + 4 <= |s|
    ensures ColorAt(PlotAll(s, pts, width, c), Offset(q, width))
         == if q in pts then c else ColorAt(s, Offset(q, width))
  {
    if pts != [] {
      var n := |pts| - 1;
      var front := pts[..n];
      assert Fits(front, width, |s|) && OnRows(front, width);
      PlotAllPixel(s, front, width, c, q);
      assert pts == front + [pts[n]];
      if pts[n] != q {
        OffsetsApart(pts[n], q, width);
        SetColorElsewhere(PlotAll(s, front, width, c), Offset(pts[n], width), c, Offset(q, width));
      }
    }
  }

  // ---------------------------------------------------------------------------
  // Compositing the marks over the snapshot
  // ---------------------------------------------------------------------------

  /** Linear interpolation from a to b by s/255, truncated toward zero as the cast to
      u8 does (the result is never negative). */
  function Lerp(a: byte, b: byte, s: byte): (r: byte)
    ensures s == 0 ==> r == a
    ensures s == 255 ==> r == b
    ensures Min(a, b) <= r <= Max(a, b)
  {
    LerpBounds(a, b, s);
    a + ((b - a) * s) / 255
  }

  lemma LerpBounds(a: byte, b: byte, s: byte)
    ensures Min(a, b) <= a + ((b - a) * s) / 255 <= Max(a, b)
  {
    if a <= b {
      MulLe(0, s, b - a);
      MulLe(s, 255, b - a);
    } else {
      MulLe(0, s, a - b);
      MulLe(s, 255, a - b);
      assert (b - a) * s == -((a - b) * s);
    }
  }

  /** One pixel of the composite of snapshot colour `original` and mark `mark`.
      Erasing: a fully opaque mark clears the pixel, anything else keeps it.
      Painting: RGB moves from the snapshot toward the mark by the mark's alpha, and
      the alphas add, saturating at 255. */
  function CompositePixel(original: Rgba, mark: Rgba, eraser: bool): Rgba {
    if eraser then
      if mark.a == 255 then Transparent else original
    else
      Rgba(Lerp(original.r, mark.r, mark.a), Lerp(original.g, mark.g, mark.a),
           Lerp(original.b, mark.b, mark.a), Min(original.a + mark.a, 255))
  }

  /** The composite of the first n pixels of snapshot and marks. */
  function CompositeN(original: seq<byte>, marks: seq<byte>, eraser: bool, n: nat): (r: seq<byte>)
    requires 4 * n <= |original| && 4 * n <= |marks|
    ensures |r| == 4 * n
  {
    if n == 0 then []
    else
      CompositeN(original, marks, eraser, n - 1)
        + Bytes(CompositePixel(ColorAt(original, 4 * (n - 1)), ColorAt(marks, 4 * (n - 1)), eraser))
  }

  /** The composite of snapshot and marks, over as many whole pixels as the shorter of
      the two holds. */
  function Composite(original: seq<byte>, marks: seq<byte>, eraser: bool): (r: seq<byte>)
    ensures |r| == 4 * (Min(|original|, |marks|) / 4)
  {
    CompositeN(original, marks, eraser, Min(|original|, |marks|) / 4)
  }

  /** Writing more pixels leaves the ones already written alone. */
  lemma ColorAtAppend(a: seq<byte>, b: seq<byte>, i: int)
    requires 0 <= i && i + 4 <= |a|
    ensures ColorAt(a + b, i) == ColorAt(a, i)
  {
  }

  lemma {:induction false} CompositeNAt(original: seq<byte>, marks: seq<byte>, eraser: bool, n: nat, k: nat)
    requires 4 * n <= |original| && 4 * n <= |marks| && k < n
    ensures ColorAt(CompositeN(original, marks, eraser, n), 4 * k)
         == CompositePixel(ColorAt(original, 4 * k), ColorAt(marks, 4 * k), eraser)
  {
    var front := CompositeN(original, marks, eraser, n - 1);
    var px := CompositePixel(ColorAt(original, 4 * (n - 1)), ColorAt(marks, 4 * (n - 1)), eraser);
    if k < n - 1 {
      CompositeNAt(original, marks, eraser, n - 1, k);
      ColorAtAppend(front, Bytes(px), 4 * k);
    }
  }

  /** Pixel k of the composite is the composite of pixel k of snapshot and marks. */
  lemma CompositeAt(original: seq<byte>, marks: seq<byte>, eraser: bool, k: int)
    requires 0 <= k && 4 * k + 4 <= |original| && 4 * k + 4 <= |marks|
    ensures 4 * k + 4 <= |Composite(original, marks, eraser)|
    ensures ColorAt(Composite(original, marks, eraser), 4 * k)
         == CompositePixel(ColorAt(original, 4 * k), ColorAt(marks, 4 * k), eraser)
  {
    var n := Min(|original|, |marks|) / 4;
    CompositeNAt(original, marks, eraser, n, k);
  }

  /** Erasing: the pixel is cleared where the mark is opaque and keeps its snapshot
      colour everywhere else. */
  lemma CompositeErases(original: seq<byte>, marks: seq<byte>, k: int)
    requires 0 <= k && 4 * k + 4 <= |original| && 4 * k + 4 <= |marks|
    ensures (CompositeAt(original, marks, true, k);
      ColorAt(Composite(original, marks, true), 4 * k)
        == if marks[4 * k + 3] == 255 then Transparent else ColorAt(original, 4 * k))
  {
    CompositeAt(original, marks, true, k);
  }

  /** Painting: the alphas add up to at most 255, each colour channel lies between the
      snapshot's and the mark's, an unmarked pixel (mark alpha 0) keeps its snapshot
      colour and an opaque mark replaces it. */
  lemma CompositeBlends(original: seq<byte>, marks: seq<byte>, k: int)
    requires 0 <= k && 4 * k + 4 <= |original| && 4 * k + 4 <= |marks|
    ensures (CompositeAt(original, marks, false, k);
      var o, m, r := ColorAt(original, 4 * k), ColorAt(marks, 4 * k),
                     ColorAt(Composite(original, marks, false), 4 * k);
      && r.a == Min(o.a + m.a, 255)
      && Min(o.r, m.r) <= r.r <= Max(o.r, m.r)
      && Min(o.g, m.g) <= r.g <= Max(o.g, m.g)
      && Min(o.b, m.b) <= r.b <= Max(o.b, m.b)
      && (m.a == 0 ==> r == o)
      && (m.a == 255 ==> r == Rgba(m.r, m.g, m.b, 255)))
  {
    CompositeAt(original, marks, false, k);
  }

  /** A pixel with no mark (all four bytes zero) composites to itself in either mode. */
  lemma CompositeUnmarked(o: Rgba, eraser: bool)
    ensures CompositePixel(o, Transparent, eraser) == o
  {
  }

  lemma {:induction false} CompositeNCleared(original: seq<byte>, marks: seq<byte>, eraser: bool, n: nat)
    requires 4 * n <= |original| && 4 * n <= |marks|
    requires forall j :: 0 <= j < |marks| ==> marks[j] == 0
    ensures CompositeN(original, marks, eraser, n) == original[..4 * n]
  {
    if n > 0 {
      CompositeNCleared(original, marks, eraser, n - 1);
      var i := 4 * (n - 1);
      assert ColorAt(marks, i) == Transparent;
      CompositeUnmarked(ColorAt(original, i), eraser);
      assert original[..4 * n] == original[..i] + Bytes(ColorAt(original, i));
    }
  }

  /** An all-zero mark buffer gives back the snapshot unchanged, in either mode: this is
      what clearing the buffer and re-applying it relies on. */
  lemma CompositeCleared(original: seq<byte>, eraser: bool)
    requires |original| % 4 == 0
    ensures Composite(original, Zeros(|original|), eraser) == original
  {
    CompositeNCleared(original, Zeros(|original|), eraser, |original| / 4);
    assert original[..|original|] == original;
  }

  // ---------------------------------------------------------------------------
  // The brush resource
  // ---------------------------------------------------------------------------

  class BrushState {
    /** The marks of the current stroke, one RGBA8 pixel per canvas pixel. */
    var buffer: seq<byte>
    /** The layer as it was when the stroke started. */
    var data: Option<seq<byte>>
    var color: Rgba
    var startPosition: Option<Point>
    var lastPosition: Option<Point>
    var mode: BrushMode
    var isCleared: bool
    /** The painting system's persistent flags: a mode switch not yet drawn. */
    var changedToPixel: bool
    var changedToLine: bool

    /** The brush between and during strokes: a buffer flagged as cleared is all zeros
        for the canvas, and remembered positions are on the canvas. */
    ghost predicate Valid(width: nat, height: nat)
      reads this
    {
      && (isCleared ==> buffer == Zeros(width * height * 4))
      && (startPosition.Some? ==> InBounds(startPosition.value, width, height))
      && (lastPosition.Some? ==> InBounds(lastPosition.value, width, height))
    }

    /** The brush during a stroke: a canvas-sized buffer and a snapshot. */
    ghost predicate Stroking(width: nat, height: nat)
      reads this
    {
      Valid(width, height) && |buffer| == width * height * 4 && data.Some?
    }

    constructor ()
      ensures buffer == [] && data == None && color == White
      ensures startPosition == None && lastPosition == None
      ensures mode == Pixel && !isCleared && !changedToPixel && !changedToLine
      ensures Valid(0, 0)
    {
      buffer := [];
      data := None;
      color := White;
      startPosition := None;
      lastPosition := None;
      mode := Pixel;
      isCleared := false;
      changedToPixel := false;
      changedToLine := false;
    }

    /** A fully transparent colour erases. */
    predicate IsEraser()
      reads this`color
    {
      color.a == 0
    }

    predicate IsLineMode()
      reads this
    {
      match mode
      case Pixel => false
      case Line => true
    }

    predicate IsPixelMode()
      reads this
      ensures IsPixelMode() <==> !IsLineMode()
    {
      match mode
      case Pixel => true
      case Line => false
    }

    /** The colour written into the buffer: opaque white when erasing (it marks the
        pixels to clear), the brush colour otherwise. */
    function Ink(): (c: Rgba)
      reads this`color
      ensures IsEraser() ==> c == White
      ensures !IsEraser() ==> c == color
    {
      if IsEraser() then White else color
    }

    method ClearBuffer(width: nat, height: nat)
      modifies this`buffer, this`isCleared
      ensures buffer == Zeros(width * height * 4) && isCleared
    {
      buffer := Zeros(width * height * 4);
      isCleared := true;
    }

    /** The four byte writes `draw_point` and `draw_line` make for one pixel. */
    method PutColor(idx: int, c: Rgba)
      requires 0 <= idx && idx + 4 <= |buffer|
      modifies this`buffer
      ensures buffer == SetColor(old(buffer), idx, c)
    {
      buffer := buffer[idx := c.r];
      buffer := buffer[idx + 1 := c.g];
      buffer := buffer[idx + 2 := c.b];
      buffer := buffer[idx + 3 := c.a];
    }

    method DrawPoint(pos: Point, width: int)
      requires 0 <= Offset(pos, width) && Offset(pos, width) + 4 <= |buffer|
      modifies this`buffer, this`isCleared
      ensures !isCleared
      ensures buffer == SetColor(old(buffer), Offset(pos, width), Ink())
    {
      isCleared := false;
      var idx := (pos.x + pos.y * width) * 4;
      PutColor(idx, Ink());
    }

    /** Plots the Bresenham line from start to end, end included. */
    method DrawLine(width: int, start: Point, end: Point)
      requires Fits(LinePoints(start, end), width, |buffer|)
      modifies this`buffer, this`isCleared
      ensures !isCleared
      ensures buffer == PlotAll(old(buffer), LinePoints(start, end), width, Ink())
    {
      isCleared := false;
      var c := Ink();
      var x, y := start.x, start.y;
      var dx := Abs(end.x - start.x);
      var dy := -(Abs(end.y - start.y) as int);
      var sx := if start.x < end.x then 1 else -1;
      var sy := if start.y < end.y then 1 else -1;
      var err := dx + dy;
      assert sx == Dir(start.x, end.x) && sy == Dir(start.y, end.y);
      ghost var g := SegmentOf(start, end);
      ghost var line := LinePoints(start, end);
      ghost var n: nat := 0;
      PlottingStarts(start, end, buffer, width, c);
      while true
        invariant g == Segment(end, dx, dy, sx, sy) && !isCleared
        invariant Plotting(start, end, line, x, y, err, n, old(buffer), buffer, width, c)
        decreases |line| - n
      {
        PlottingStep(start, end, line, x, y, err, n, old(buffer), buffer, width, c);
        var idx := (y * width + x) * 4;
        assert idx == Offset(Point(x, y), width);
        PutColor(idx, c);
        if x == end.x && y == end.y {
          break;
        }
        n := n + 1;
        x, y, err := AdvanceStep(g, x, y, err, dx, dy, sx, sy);
      }
    }

    /** The error-term update at the foot of the `draw_line` loop. */
    static method AdvanceStep(ghost g: Segment, x: int, y: int, err: int, dx: int, dy: int, sx: int, sy: int)
      returns (x1: int, y1: int, err1: int)
      requires g.dx == dx && g.dy == dy && g.sx == sx && g.sy == sy
      ensures (x1, y1, err1) == Advance(g, x, y, err)
    {
      x1, y1, err1 := x, y, err;
      var e2 := err * 2;
      if e2 > dy {
        err1 := err1 + dy;
        x1 := x1 + sx;
      }
      if e2 < dx {
        err1 := err1 + dx;
        y1 := y1 + sy;
      }
    }

    /** The layer to show: the snapshot with the marks composited over it, or nothing
        when no snapshot is held. */
    method GetUpdatedBuffer() returns (r: Option<seq<byte>>)
      ensures data.None? ==> r == None
      ensures data.Some? ==> r == Some(Composite(data.value, buffer, IsEraser()))
    {
      if data.None? {
        return None;
      }
      var original := data.value;
      var n := Min(|original|, |buffer|) / 4;
      var out: seq<byte> := [];
      var i := 0;
      while i < n
        invariant 0 <= i <= n
        invariant out == CompositeN(original, buffer, IsEraser(), i)
      {
        var o := ColorAt(original, 4 * i);
        var m := ColorAt(buffer, 4 * i);
        var px: Rgba;
        if IsEraser() {
          if m.a == 255 {
            px := Transparent;
          } else {
            px := o;
          }
        } else {
          px := Rgba(Lerp(o.r, m.r, m.a), Lerp(o.g, m.g, m.a), Lerp(o.b, m.b, m.a), Min(o.a + m.a, 255));
        }
        out := out + Bytes(px);
        i := i + 1;
      }
      return Some(out);
    }

    /** Takes the snapshot from `layer` if none is held yet, and returns the new
        contents of the layer: the composite of snapshot and marks. */
    method ApplyBufferToLayer(layer: seq<byte>) returns (newLayer: seq<byte>)
      modifies this`data
      ensures data == (if old(data).None? then Some(layer) else old(data))
      ensures newLayer == Composite(data.value, buffer, IsEraser())
    {
      if data.None? {
        data := Some(layer);
      }
      var updated := GetUpdatedBuffer();
      newLayer := updated.value;
    }

    /** A stroke starts: the mode follows the shift key, the layer is snapshotted, the
        buffer is cleared and, with the cursor on the canvas, its pixel is marked and
        shown. */
    method StartPainting(shiftPressed: bool, cursor: Cursor, width: nat, height: nat,
                         layer: seq<byte>) returns (newLayer: seq<byte>)
      requires Valid(width, height)
      requires cursor.Inside? ==> InBounds(cursor.pos, width, height)
      modifies this
      ensures Stroking(width, height)
      ensures mode == (if shiftPressed then Line else Pixel)
      ensures data == Some(layer) && color == old(color)
      ensures startPosition == lastPosition
      ensures lastPosition == (if cursor.Inside? then Some(cursor.pos) else None)
      ensures changedToLine == old(changedToLine) && changedToPixel == old(changedToPixel)
      ensures cursor.Inside? ==> (LinInBounds(cursor.pos, width, height);
        buffer == SetColor(Zeros(width * height * 4), Offset(cursor.pos, width), Ink())
        && newLayer == Composite(layer, buffer, IsEraser()))
      ensures cursor.Outside? ==> buffer == Zeros(width * height * 4) && isCleared && newLayer == layer
    {
      mode := if shiftPressed then Line else Pixel;
      data := Some(layer);
      if !isCleared {
        ClearBuffer(width, height);
      }
      newLayer := layer;
      if cursor.Inside? {
        startPosition := Some(cursor.pos);
        LinInBounds(cursor.pos, width, height);
        DrawPoint(cursor.pos, width);
        newLayer := ApplyBufferToLayer(newLayer);
      } else {
        startPosition := None;
      }
      lastPosition := if cursor.Inside? then Some(cursor.pos) else None;
    }

    /** A stroke ends: the snapshot is handed over for the history and the brush
        forgets the cursor. */
    method StopPainting() returns (snapshot: seq<byte>)
      requires data.Some?
      modifies this`data, this`lastPosition
      ensures snapshot == old(data).value
      ensures data == None && lastPosition == None
    {
      snapshot := data.value;
      data := None;
      lastPosition := None;
    }

    /** One frame of a stroke: the shift key first, then the cursor. */
    method Painting(justPressed: bool, justReleased: bool, cursor: Cursor,
                    width: nat, height: nat, layer: seq<byte>) returns (newLayer: seq<byte>)
      requires Stroking(width, height)
      requires cursor.Inside? ==> InBounds(cursor.pos, width, height)
      modifies this
      ensures Stroking(width, height)
      ensures mode == (if justPressed then Line else if justReleased then Pixel else old(mode))
      ensures color == old(color) && data == old(data) && startPosition == old(startPosition)
      ensures lastPosition == (if cursor.Inside? then Some(cursor.pos) else None)
      ensures
        var toLine := justPressed || old(changedToLine);
        var toPixel := (!justPressed && justReleased) || old(changedToPixel);
        if cursor.Inside? && old(lastPosition).Some? && (old(lastPosition).value != cursor.pos || toLine) then
          var last := old(lastPosition).value;
          var from := if mode == Pixel then last else old(startPosition).GetOr(last);
          var base := if mode == Pixel && !toPixel then old(buffer) else Zeros(width * height * 4);
          && buffer == PlotAll(base, LinePoints(from, cursor.pos), width, Ink())
          && newLayer == Composite(data.value, buffer, IsEraser())
          && !changedToLine && !changedToPixel
        else
          && buffer == (if justPressed then Zeros(width * height * 4) else old(buffer))
          && newLayer == (if justPressed then Composite(data.value, buffer, IsEraser()) else layer)
          && changedToLine == toLine && changedToPixel == toPixel
    {
      newLayer := SwitchMode(justPressed, justReleased, width, height, layer);
      newLayer := FollowCursor(cursor, width, height, newLayer);
    }

    /** The shift key: pressing it switches to line mode, clears the marks and shows the
        snapshot again; releasing it switches to pixel mode. Either switch is remembered
        until a line is next drawn. */
    method SwitchMode(justPressed: bool, justReleased: bool, width: nat, height: nat,
                      layer: seq<byte>) returns (newLayer: seq<byte>)
      requires Stroking(width, height)
      modifies this`changedToLine, this`changedToPixel, this`buffer, this`isCleared, this`mode, this`data
      ensures Stroking(width, height) && data == old(data)
      ensures mode == (if justPressed then Line else if justReleased then Pixel else old(mode))
      ensures changedToLine == (justPressed || old(changedToLine))
      ensures changedToPixel == ((!justPressed && justReleased) || old(changedToPixel))
      ensures buffer == (if justPressed then Zeros(width * height * 4) else old(buffer))
      ensures newLayer == (if justPressed then Composite(data.value, buffer, IsEraser()) else layer)
    {
      newLayer := layer;
      if justPressed {
        changedToLine := true;
        ClearBuffer(width, height);
        newLayer := ApplyBufferToLayer(newLayer);
        mode := Line;
      } else if justReleased {
        changedToPixel := true;
        mode := Pixel;
      }
    }

    /** The cursor: when it has moved (or a switch to line mode is pending) a line is
        drawn to it, in pixel mode from the previous sample onto the existing marks (onto
        cleared marks right after a switch), in line mode from the stroke's start onto
        cleared marks; then the cursor sample is remembered. */
    method FollowCursor(cursor: Cursor, width: nat, height: nat, layer: seq<byte>)
      returns (newLayer: seq<byte>)
      requires Stroking(width, height)
      requires cursor.Inside? ==> InBounds(cursor.pos, width, height)
      modifies this`buffer, this`isCleared, this`lastPosition, this`changedToLine, this`changedToPixel, this`data
      ensures Stroking(width, height) && data == old(data)
      ensures lastPosition == (if cursor.Inside? then Some(cursor.pos) else None)
      ensures
        if cursor.Inside? && old(lastPosition).Some? && (old(lastPosition).value != cursor.pos || old(changedToLine)) then
          var last := old(lastPosition).value;
          var from := if mode == Pixel then last else startPosition.GetOr(last);
          var base := if mode == Pixel && !old(changedToPixel) then old(buffer) else Zeros(width * height * 4);
          && buffer == PlotAll(base, LinePoints(from, cursor.pos), width, Ink())
          && newLayer == Composite(data.value, buffer, IsEraser())
          && !changedToLine && !changedToPixel
        else
          && buffer == old(buffer) && newLayer == layer
          && changedToLine == old(changedToLine) && changedToPixel == old(changedToPixel)
    {
      newLayer := layer;
      if cursor.Inside? {
        var next := cursor.pos;
        if lastPosition.Some? {
          var last := lastPosition.value;
          if last == next && !changedToLine {
            return;
          }
          newLayer := Redraw(last, next, width, height, newLayer);
        }
        lastPosition := Some(next);
      } else {
        lastPosition := None;
      }
    }

    /** The first half of a redraw: in line mode the buffer is cleared and the line starts
        at the stroke's start; in pixel mode it starts at the last position, and the buffer
        is cleared (and the layer refreshed) only right after a switch to pixel mode. */
    method PrepareRedraw(last: Point, width: nat, height: nat, layer: seq<byte>)
      returns (from: Point)
      requires Stroking(width, height)
      requires InBounds(last, width, height)
      modifies this`buffer, this`isCleared, this`data
      ensures Stroking(width, height) && data == old(data)
      ensures from == if mode == Pixel then last else startPosition.GetOr(last)
      ensures InBounds(from, width, height)
      ensures buffer == if mode == Pixel && !changedToPixel then old(buffer) else Zeros(width * height * 4)
    {
      var ignored: seq<byte>;
      if IsPixelMode() {
        if changedToPixel {
          ClearBuffer(width, height);
          ignored := ApplyBufferToLayer(layer);
        }
        from := last;
      } else {
        ClearBuffer(width, height);
        from := startPosition.GetOr(last);
      }
    }

    /** Draws the line to the cursor at `next` that follows a move from `last`, shows
        the result and settles any pending mode switch. */
    method Redraw(last: Point, next: Point, width: nat, height: nat, layer: seq<byte>)
      returns (newLayer: seq<byte>)
      requires Stroking(width, height)
      requires InBounds(last, width, height) && InBounds(next, width, height)
      modifies this`buffer, this`isCleared, this`changedToLine, this`changedToPixel, this`data
      ensures Stroking(width, height) && data == old(data)
      ensures
        var from := if mode == Pixel then last else startPosition.GetOr(last);
        var base := if mode == Pixel && !old(changedToPixel) then old(buffer) else Zeros(width * height * 4);
        && buffer == PlotAll(base, LinePoints(from, next), width, Ink())
        && newLayer == Composite(data.value, buffer, IsEraser())
        && !changedToLine && !changedToPixel
    {
      var from := PrepareRedraw(last, width, height, layer);
      LineFits(from, next, width, height);
      DrawLine(width, from, next);
      newLayer := ApplyBufferToLayer(layer);
      changedToLine := false;
      changedToPixel := false;
    }
  }

  /** After a redraw, a pixel of the canvas shows the ink exactly when it lies on the line
      just drawn, given marks that were cleared before it. */
  lemma RedrawnLine(from: Point, to: Point, width: nat, height: nat, ink: Rgba, q: Point)
    requires InBounds(from, width, height) && InBounds(to, width, height) && InBounds(q, width, height)
    ensures (LineInBounds(from, to, width, height); LinInBounds(q, width, height);
      var s := PlotAll(Zeros(width * height * 4), LinePoints(from, to), width, ink);
      ColorAt(s, Offset(q, width)) == if q in LinePoints(from, to) then ink else Transparent)
  {
    LineInBounds(from, to, width, height);
    LinInBounds(q, width, height);
    PlotAllPixel(Zeros(width * height * 4), LinePoints(from, to), width, ink, q);
  }
}
