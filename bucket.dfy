/** The bucket tool: a flood fill driven by an explicit work stack, one bounds-checked,
    colour-checked pixel write per popped position. */
module Bucket {
  import opened Pixels

  /** The tool state the fill hands back to; only `Idle` is ever set here. */
  datatype ToolState = Idle | Filling

  // ---------------------------------------------------------------------------
  // The colour comparison
  // ---------------------------------------------------------------------------

  /** The signed channel differences are summed (as i16, which cannot overflow), the
      absolute value of the sum is taken and truncated to u8. */
  function CompareColor(a: Rgba, b: Rgba): (d: byte)
  {
    Abs((a.r - b.r) + (a.g - b.g) + (a.b - b.b) + (a.a - b.a)) % 256
  }

  /** A colour always compares equal to itself, and the comparison is symmetric. */
  lemma CompareSelf(a: Rgba, b: Rgba)
    ensures CompareColor(a, a) == 0
    ensures CompareColor(a, b) == CompareColor(b, a)
  {
  }

  /** Differences that cancel out compare equal: here red one up, green one down. */
  lemma CompareCancels()
    ensures Rgba(1, 0, 0, 0) != Rgba(0, 1, 0, 0)
    ensures CompareColor(Rgba(1, 0, 0, 0), Rgba(0, 1, 0, 0)) == 0
  {
  }

  /** A difference of exactly 256 truncates to 0 and also compares equal. */
  lemma CompareWraps()
    ensures CompareColor(Rgba(255, 1, 0, 0), Transparent) == 0
  {
  }

  // ---------------------------------------------------------------------------
  // One step of the fill
  // ---------------------------------------------------------------------------

  /** `span_fill_step` writes the pixel at p: p is on the canvas, its colour compares
      equal to the target and does not compare equal to the fill colour. */
  predicate Fillable(s: seq<byte>, p: Point, width: nat, height: nat, fill: Rgba, target: Rgba)
    requires |s| == width * height * 4
  {
    InBounds(p, width, height) &&
    (LinInBounds(p, width, height);
     var c := ColorAt(s, Offset(p, width));
     !(CompareColor(c, target) > 0 || CompareColor(c, fill) == 0))
  }

  /** The four positions pushed after a successful step, in push order. */
  function Neighbours(p: Point): (r: seq<Point>)
    ensures |r| == 4
  {
    [Point(p.x + 1, p.y), Point(p.x - 1, p.y), Point(p.x, p.y + 1), Point(p.x, p.y - 1)]
  }

  /** The number of the first n pixels of s whose colour is not `fill`. */
  function Unfilled(s: seq<byte>, fill: Rgba, n: nat): nat
    requires 4 * n <= |s|
  {
    if n == 0 then 0
    else Unfilled(s, fill, n - 1) + (if ColorAt(s, 4 * (n - 1)) != fill then 1 else 0)
  }

  /** Painting pixel k with `fill` over a colour other than `fill` leaves one pixel fewer
      unfilled among any first n pixels that include it, and changes nothing for those
      that do not. */
  lemma {:induction false} UnfilledPaint(s: seq<byte>, fill: Rgba, n: nat, k: nat)
    requires 4 * n <= |s| && 4 * k + 4 <= |s| && ColorAt(s, 4 * k) != fill
    ensures Unfilled(SetColor(s, 4 * k, fill), fill, n) == if k < n then Unfilled(s, fill, n) - 1 else Unfilled(s, fill, n)
    ensures k < n ==> Unfilled(s, fill, n) >= 1
  {
    if n > 0 {
      UnfilledPaint(s, fill, n - 1, k);
      if k != n - 1 {
        SetColorElsewhere(s, 4 * k, fill, 4 * (n - 1));
      }
    }
  }

  /** A successful step strictly reduces the number of unfilled pixels. */
  lemma StepShrinks(s: seq<byte>, p: Point, width: nat, height: nat, fill: Rgba, target: Rgba)
    requires |s| == width * height * 4 && Fillable(s, p, width, height, fill, target)
    ensures 0 <= Offset(p, width) && Offset(p, width) + 4 <= |s|
    ensures Unfilled(SetColor(s, Offset(p, width), fill), fill, width * height) < Unfilled(s, fill, width * height)
  {
    LinInBounds(p, width, height);
    CompareSelf(fill, fill);
    UnfilledPaint(s, fill, width * height, Lin(p, width));
  }

  // ---------------------------------------------------------------------------
  // The whole fill, as a function of the image and the work stack
  // ---------------------------------------------------------------------------

  /** The image after the `start_filling` loop has run from work stack `stack` (popped
      from its end) over image s. */
  function FloodFill(s: seq<byte>, stack: seq<Point>, width: nat, height: nat, fill: Rgba, target: Rgba): (r: seq<byte>)
    requires |s| == width * height * 4
    ensures |r| == |s|
    decreases Unfilled(s, fill, width * height), |stack|
  {
    if stack == [] then s
    else
      var p, rest := stack[|stack| - 1], stack[..|stack| - 1];
      if Fillable(s, p, width, height, fill, target) then
        StepShrinks(s, p, width, height, fill, target);
        FloodFill(SetColor(s, Offset(p, width), fill), rest + Neighbours(p), width, height, fill, target)
      else
        FloodFill(s, rest, width, height, fill, target)
  }

  /** One pass of the loop: pop p and, if the step at p succeeds, push its neighbours. */
  lemma FloodFillPop(s: seq<byte>, stack: seq<Point>, width: nat, height: nat, fill: Rgba, target: Rgba)
    requires |s| == width * height * 4 && stack != []
    ensures var p, rest := stack[|stack| - 1], stack[..|stack| - 1];
      if Fillable(s, p, width, height, fill, target) then
        (LinInBounds(p, width, height);
         && FloodFill(s, stack, width, height, fill, target)
              == FloodFill(SetColor(s, Offset(p, width), fill), rest + Neighbours(p), width, height, fill, target)
         && Unfilled(SetColor(s, Offset(p, width), fill), fill, width * height) < Unfilled(s, fill, width * height))
      else
        FloodFill(s, stack, width, height, fill, target) == FloodFill(s, rest, width, height, fill, target)
  {
    var p := stack[|stack| - 1];
    if Fillable(s, p, width, height, fill, target) {
      StepShrinks(s, p, width, height, fill, target);
    }
  }

  /** Pixel p of s either still has its colour in s0, or holds the fill colour and had,
      in s0, a colour that the step's two tests let through. */
  predicate FilledFrom(s0: seq<byte>, s: seq<byte>, p: Point, width: nat, height: nat, fill: Rgba, target: Rgba)
    requires |s0| == |s| == width * height * 4 && InBounds(p, width, height)
  {
    LinInBounds(p, width, height);
    var before, now := ColorAt(s0, Offset(p, width)), ColorAt(s, Offset(p, width));
    now == before || (now == fill && CompareColor(before, target) == 0 && CompareColor(before, fill) != 0)
  }

  ghost predicate AllFilledFrom(s0: seq<byte>, s: seq<byte>, width: nat, height: nat, fill: Rgba, target: Rgba)
    requires |s0| == |s| == width * height * 4
  {
    forall p :: InBounds(p, width, height) ==> FilledFrom(s0, s, p, width, height, fill, target)
  }

  /** A pixel other than p keeps its colour when p is painted. */
  lemma PaintElsewhere(s: seq<byte>, p: Point, q: Point, width: nat, height: nat, c: Rgba)
    requires |s| == width * height * 4 && InBounds(p, width, height) && InBounds(q, width, height) && p != q
    ensures (LinInBounds(p, width, height); LinInBounds(q, width, height);
      ColorAt(SetColor(s, Offset(p, width), c), Offset(q, width)) == ColorAt(s, Offset(q, width)))
  {
    LinInBounds(p, width, height);
    LinInBounds(q, width, height);
    OffsetsApart(p, q, width);
    SetColorElsewhere(s, Offset(p, width), c, Offset(q, width));
  }

  /** A successful step keeps every pixel accounted for against s0. */
  lemma StepFilledFrom(s0: seq<byte>, s: seq<byte>, p: Point, width: nat, height: nat, fill: Rgba, target: Rgba)
    requires |s0| == |s| == width * height * 4
    requires AllFilledFrom(s0, s, width, height, fill, target) && Fillable(s, p, width, height, fill, target)
    ensures (LinInBounds(p, width, height);
      AllFilledFrom(s0, SetColor(s, Offset(p, width), fill), width, height, fill, target))
  {
    LinInBounds(p, width, height);
    var s1 := SetColor(s, Offset(p, width), fill);
    CompareSelf(fill, fill);
    forall q | InBounds(q, width, height)
      ensures FilledFrom(s0, s1, q, width, height, fill, target)
    {
      assert FilledFrom(s0, s, q, width, height, fill, target);
      if q != p {
        PaintElsewhere(s, p, q, width, height, fill);
      }
    }
  }

  /** Whatever the stack, the fill only ever changes a pixel to the fill colour, and only
      a pixel whose original colour passed both tests. */
  lemma {:induction false} FloodFillOnlyFills(s0: seq<byte>, s: seq<byte>, stack: seq<Point>, width: nat, height: nat, fill: Rgba, target: Rgba)
    requires |s0| == |s| == width * height * 4
    requires AllFilledFrom(s0, s, width, height, fill, target)
    ensures AllFilledFrom(s0, FloodFill(s, stack, width, height, fill, target), width, height, fill, target)
    decreases Unfilled(s, fill, width * height), |stack|
  {
    if stack != [] {
      var p, rest := stack[|stack| - 1], stack[..|stack| - 1];
      if Fillable(s, p, width, height, fill, target) {
        StepShrinks(s, p, width, height, fill, target);
        StepFilledFrom(s0, s, p, width, height, fill, target);
        FloodFillOnlyFills(s0, SetColor(s, Offset(p, width), fill), rest + Neighbours(p), width, height, fill, target);
      } else {
        FloodFillOnlyFills(s0, s, rest, width, height, fill, target);
      }
    }
  }

  /** A pixel that holds the fill colour keeps it. */
  lemma {:induction false} FloodFillKeeps(s: seq<byte>, stack: seq<Point>, width: nat, height: nat, fill: Rgba, target: Rgba, q: Point)
    requires |s| == width * height * 4 && InBounds(q, width, height)
    requires (LinInBounds(q, width, height); ColorAt(s, Offset(q, width)) == fill)
    ensures (LinInBounds(q, width, height);
      ColorAt(FloodFill(s, stack, width, height, fill, target), Offset(q, width)) == fill)
    decreases Unfilled(s, fill, width * height), |stack|
  {
    LinInBounds(q, width, height);
    if stack != [] {
      var p, rest := stack[|stack| - 1], stack[..|stack| - 1];
      if Fillable(s, p, width, height, fill, target) {
        StepShrinks(s, p, width, height, fill, target);
        if p != q {
          PaintElsewhere(s, p, q, width, height, fill);
        }
        FloodFillKeeps(SetColor(s, Offset(p, width), fill), rest + Neighbours(p), width, height, fill, target, q);
      } else {
        FloodFillKeeps(s, rest, width, height, fill, target, q);
      }
    }
  }

  /** Every neighbour of p is either no longer fillable or still waiting on the stack. */
  predicate Settled(s: seq<byte>, stack: seq<Point>, p: Point, width: nat, height: nat, fill: Rgba, target: Rgba)
    requires |s| == width * height * 4
  {
    forall q :: q in Neighbours(p) ==> !Fillable(s, q, width, height, fill, target) || q in stack
  }

  /** A pixel the fill has changed (its colour differs from s0). */
  predicate Changed(s0: seq<byte>, s: seq<byte>, p: Point, width: nat, height: nat)
    requires |s0| == |s| == width * height * 4
  {
    InBounds(p, width, height) &&
    (LinInBounds(p, width, height); ColorAt(s, Offset(p, width)) != ColorAt(s0, Offset(p, width)))
  }

  /** The loop's frontier invariant: every changed pixel is settled. */
  ghost predicate Frontier(s0: seq<byte>, s: seq<byte>, stack: seq<Point>, width: nat, height: nat, fill: Rgba, target: Rgba)
    requires |s0| == |s| == width * height * 4
  {
    forall p :: Changed(s0, s, p, width, height) ==> Settled(s, stack, p, width, height, fill, target)
  }

  /** Painting p changes only p's fillability, and makes it unfillable. */
  lemma PaintFillable(s: seq<byte>, p: Point, q: Point, width: nat, height: nat, fill: Rgba, target: Rgba)
    requires |s| == width * height * 4 && InBounds(p, width, height)
    ensures (LinInBounds(p, width, height);
      var s1 := SetColor(s, Offset(p, width), fill);
      Fillable(s1, q, width, height, fill, target) <==> q != p && Fillable(s, q, width, height, fill, target))
  {
    LinInBounds(p, width, height);
    CompareSelf(fill, fill);
    if q != p && InBounds(q, width, height) {
      PaintElsewhere(s, p, q, width, height, fill);
    }
  }

  /** One pass of the loop keeps the frontier invariant. */
  lemma StepFrontier(s0: seq<byte>, s: seq<byte>, stack: seq<Point>, width: nat, height: nat, fill: Rgba, target: Rgba)
    requires |s0| == |s| == width * height * 4 && stack != []
    requires Frontier(s0, s, stack, width, height, fill, target)
    ensures var p, rest := stack[|stack| - 1], stack[..|stack| - 1];
      if Fillable(s, p, width, height, fill, target) then
        LinInBounds(p, width, height);
        Frontier(s0, SetColor(s, Offset(p, width), fill), rest + Neighbours(p), width, height, fill, target)
      else
        Frontier(s0, s, rest, width, height, fill, target)
  {
    var p, rest := stack[|stack| - 1], stack[..|stack| - 1];
    assert stack == rest + [p];
    if Fillable(s, p, width, height, fill, target) {
      LinInBounds(p, width, height);
      var s1, stack1 := SetColor(s, Offset(p, width), fill), rest + Neighbours(p);
      forall c | Changed(s0, s1, c, width, height)
        ensures Settled(s1, stack1, c, width, height, fill, target)
      {
        forall q | q in Neighbours(c)
          ensures !Fillable(s1, q, width, height, fill, target) || q in stack1
        {
          PaintFillable(s, p, q, width, height, fill, target);
          if c != p {
            PaintElsewhere(s, p, c, width, height, fill);
            assert Changed(s0, s, c, width, height);
            assert Settled(s, stack, c, width, height, fill, target);
          }
        }
      }
    } else {
      forall c | Changed(s0, s, c, width, height)
        ensures Settled(s, rest, c, width, height, fill, target)
      {
        assert Settled(s, stack, c, width, height, fill, target);
      }
    }
  }

  /** An empty stack with the frontier invariant: no fillable pixel borders a changed one. */
  lemma {:induction false} FloodFillFrontier(s0: seq<byte>, s: seq<byte>, stack: seq<Point>, width: nat, height: nat, fill: Rgba, target: Rgba)
    requires |s0| == |s| == width * height * 4
    requires Frontier(s0, s, stack, width, height, fill, target)
    ensures Frontier(s0, FloodFill(s, stack, width, height, fill, target), [], width, height, fill, target)
    decreases Unfilled(s, fill, width * height), |stack|
  {
    if stack != [] {
      var p, rest := stack[|stack| - 1], stack[..|stack| - 1];
      StepFrontier(s0, s, stack, width, height, fill, target);
      if Fillable(s, p, width, height, fill, target) {
        StepShrinks(s, p, width, height, fill, target);
        FloodFillFrontier(s0, SetColor(s, Offset(p, width), fill), rest + Neighbours(p), width, height, fill, target);
      } else {
        FloodFillFrontier(s0, s, rest, width, height, fill, target);
      }
    }
  }

  /** What a fill from one seed does: it changes nothing when the seed is not fillable;
      otherwise the seed ends up with the fill colour; every changed pixel now holds the
      fill colour and had a colour that passed both tests; and no neighbour of a changed
      pixel is left fillable. */
  lemma FloodFillSeed(s0: seq<byte>, seed: Point, width: nat, height: nat, fill: Rgba, target: Rgba)
    requires |s0| == width * height * 4
    ensures var r := FloodFill(s0, [seed], width, height, fill, target);
      && (!Fillable(s0, seed, width, height, fill, target) ==> r == s0)
      && (Fillable(s0, seed, width, height, fill, target) ==>
            (LinInBounds(seed, width, height); ColorAt(r, Offset(seed, width)) == fill))
      && AllFilledFrom(s0, r, width, height, fill, target)
      && (forall p, q :: Changed(s0, r, p, width, height) && q in Neighbours(p) ==>
            !Fillable(r, q, width, height, fill, target))
  {
    var r := FloodFill(s0, [seed], width, height, fill, target);
    if Fillable(s0, seed, width, height, fill, target) {
      StepShrinks(s0, seed, width, height, fill, target);
      var s1 := SetColor(s0, Offset(seed, width), fill);
      assert [seed][..0] + Neighbours(seed) == Neighbours(seed);
      assert r == FloodFill(s1, Neighbours(seed), width, height, fill, target);
      FloodFillKeeps(s1, Neighbours(seed), width, height, fill, target, seed);
    } else {
      assert r == FloodFill(s0, [], width, height, fill, target);
    }
    FloodFillOnlyFills(s0, s0, [seed], width, height, fill, target);
    FloodFillFrontier(s0, s0, [seed], width, height, fill, target);
    forall p, q | Changed(s0, r, p, width, height) && q in Neighbours(p)
      ensures !Fillable(r, q, width, height, fill, target)
    {
      assert Settled(r, [], p, width, height, fill, target);
    }
  }

  // ---------------------------------------------------------------------------
  // The bucket resource
  // ---------------------------------------------------------------------------

  class BucketState {
    /** The image as it was before the last fill. */
    var data: Option<seq<byte>>
    var fillColor: Rgba
    var targetColor: Rgba

    /** The default resource: no snapshot, both colours the default white. */
    constructor ()
      ensures data == None && fillColor == White && targetColor == White
    {
      data := None;
      fillColor := White;
      targetColor := White;
    }

    /** Paints the pixel at `start` with the fill colour when it is on the canvas, its
        colour compares equal to the target and not equal to the fill colour; reports
        whether it did. */
    method SpanFillStep(start: Point, width: nat, height: nat, image: array<byte>) returns (filled: bool)
      requires image.Length == width * height * 4
      modifies image
      ensures filled == Fillable(old(image[..]), start, width, height, fillColor, targetColor)
      ensures filled ==> (LinInBounds(start, width, height);
        image[..] == SetColor(old(image[..]), Offset(start, width), fillColor))
      ensures !filled ==> image[..] == old(image[..])
    {
      if start.x < 0 || start.x >= width || start.y < 0 || start.y >= height {
        return false;
      }
      LinInBounds(start, width, height);
      var idx := (start.y * width + start.x) * 4;
      var color := Rgba(image[idx], image[idx + 1], image[idx + 2], image[idx + 3]);
      if CompareColor(color, targetColor) > 0 || CompareColor(color, fillColor) == 0 {
        return false;
      }
      ghost var before := image[..];
      image[idx] := fillColor.r;
      image[idx + 1] := fillColor.g;
      image[idx + 2] := fillColor.b;
      image[idx + 3] := fillColor.a;
      assert image[..] == SetColor(before, idx, fillColor);
      return true;
    }

    /** With the cursor on the canvas: records the seed's colour as the target and the
        image as the snapshot, then fills from the seed with a work stack. In every case
        the tool goes back to idle. */
    method StartFilling(cursor: Cursor, width: nat, height: nat, image: array<byte>) returns (next: ToolState)
      requires image.Length == width * height * 4
      requires cursor.Inside? ==> InBounds(cursor.pos, width, height)
      modifies this`data, this`targetColor, image
      ensures next == Idle
      ensures cursor.Outside? ==> image[..] == old(image[..]) && data == old(data) && targetColor == old(targetColor)
      ensures cursor.Inside? ==> (LinInBounds(cursor.pos, width, height);
        && targetColor == ColorAt(old(image[..]), Offset(cursor.pos, width))
        && data == Some(old(image[..]))
        && image[..] == FloodFill(old(image[..]), [cursor.pos], width, height, fillColor, targetColor))
    {
      if cursor.Inside? {
        var pos := cursor.pos;
        LinInBounds(pos, width, height);
        var idx := (pos.y * width + pos.x) * 4;
        targetColor := Rgba(image[idx], image[idx + 1], image[idx + 2], image[idx + 3]);
        data := Some(image[..]);
        ghost var target := targetColor;
        ghost var result := FloodFill(image[..], [pos], width, height, fillColor, targetColor);
        var queue := [pos];
        while queue != []
          invariant targetColor == target && data == Some(old(image[..]))
          invariant FloodFill(image[..], queue, width, height, fillColor, targetColor) == result
          decreases Unfilled(image[..], fillColor, width * height), |queue|
        {
          ghost var before, stack := image[..], queue;
          FloodFillPop(before, stack, width, height, fillColor, targetColor);
          var p := queue[|queue| - 1];
          queue := queue[..|queue| - 1];
          var ok := SpanFillStep(p, width, height, image);
          if ok {
            queue := queue + [Point(p.x + 1, p.y)];
            queue := queue + [Point(p.x - 1, p.y)];
            queue := queue + [Point(p.x, p.y + 1)];
            queue := queue + [Point(p.x, p.y - 1)];
            assert queue == stack[..|stack| - 1] + Neighbours(p);
          }
        }
      }
      return Idle;
    }

    /** The fill is over: the snapshot is handed over for the history. */
    method StopFilling() returns (snapshot: seq<byte>)
      requires data.Some?
      modifies this`data
      ensures snapshot == old(data).value && data == None
    {
      snapshot := data.value;
      data := None;
    }
  }
}
