/** The animated fill operation of the command centre (commands/fill.rs): processing it
    snapshots the layer and seeds a frontier at the cursor; each tick grows the frontier
    by painting it and admitting matching neighbours; undo and redo swap the snapshot
    with the layer. */
module FillCmd {
  import opened Pixels
  import opened Editor

  /** A fill operation: its layer snapshot (empty until processed), colour and speed. */
  datatype FillOp = FillOp(buffer: seq<byte>, color: Rgba, speed: real)

  /** `Fill::new`: a positive speed gives an operation with no snapshot; any other speed
      is rejected (the source's assertion). */
  function NewFill(color: Rgba, speed: real): (r: Option<FillOp>)
    ensures r.Some? <==> speed > 0.0
    ensures r.Some? ==> r.value == FillOp([], color, speed)
  {
    if speed > 0.0 then Some(FillOp([], color, speed)) else None
  }

  /** Processing with the cursor on the canvas: the operation keeps a copy of the layer,
      the frontier becomes the cursor pixel, the colour under it becomes the colour to
      spread over, the fill adopts the operation's colour and speed, its clock restarts
      and the editor starts filling. With the cursor off the canvas nothing changes.
      None when the cursor pixel lies outside the layer's bytes. */
  function Process(op: FillOp, v: Scene): (r: Option<(FillOp, Scene)>)
  {
    match v.cursor
    case Outside => Some((op, v))
    case Inside(pos) =>
      if 0 <= Offset(pos, v.width) && Offset(pos, v.width) + 4 <= |v.layer| then
        Some((op.(buffer := v.layer),
              v.(state := Filling, alive := {pos}, fillInColor := ColorAt(v.layer, Offset(pos, v.width)),
                 fillColor := op.color, speed := op.speed, elapsed := 0.0)))
      else None
  }

  /** Undo and redo: the snapshot and the layer trade places. */
  function Swap(op: FillOp, v: Scene): (r: (FillOp, Scene))
  {
    (op.(buffer := v.layer), v.(layer := op.buffer))
  }

  lemma ProcessSeeds(op: FillOp, v: Scene)
    requires Good(v) && |v.layer| == v.width * v.height * 4
    ensures Process(op, v).Some?
    ensures v.cursor.Outside? ==> Process(op, v).value == (op, v)
    ensures v.cursor.Inside? ==>
      var (op', v') := Process(op, v).value;
      && op' == FillOp(v.layer, op.color, op.speed)
      && v'.alive == {v.cursor.pos} && v'.state == Filling && v'.layer == v.layer
      && (LinInBounds(v.cursor.pos, v.width, v.height);
          v'.fillInColor == ColorAt(v.layer, Offset(v.cursor.pos, v.width)))
      && v'.fillColor == op.color && v'.speed == op.speed && v'.elapsed == 0.0
  {
    if v.cursor.Inside? {
      LinInBounds(v.cursor.pos, v.width, v.height);
    }
  }

  /** Swapping twice restores both the snapshot and the layer. */
  lemma SwapTwice(op: FillOp, v: Scene)
    ensures Swap(Swap(op, v).0, Swap(op, v).1) == (op, v)
  {
  }

  // ---------------------------------------------------------------- growth

  /** The channel distance of two colours, times 255: the sum of the absolute channel
      differences. */
  function Distance(a: Rgba, b: Rgba): nat {
    Abs(a.r - b.r) + Abs(a.g - b.g) + Abs(a.b - b.b) + Abs(a.a - b.a)
  }

  /** `color_distance(a, b) < 0.01` for the normalised distance Distance/255. */
  predicate Near(a: Rgba, b: Rgba) {
    Distance(a, b) * 100 < 255
  }

  /** `color_distance(a, b) > 0.01`. */
  predicate Far(a: Rgba, b: Rgba) {
    Distance(a, b) * 100 > 255
  }

  /** On whole channel values the two tests are complementary, and a colour is near
      itself. */
  lemma NearOrFar(a: Rgba, b: Rgba)
    ensures Near(a, b) <==> !Far(a, b)
    ensures Near(a, a) && !Far(a, a)
    ensures Near(a, b) <==> Distance(a, b) <= 2
  {
  }

  /** The corner gates of one tick (the parity tests on the elapsed time). */
  datatype Gates = Gates(upLeft: bool, upRight: bool, downRight: bool, downLeft: bool)

  /** What one tick's growth works with: the canvas size, the colour spread over, the
      fill colour and the corner gates. */
  datatype Growth = Growth(width: nat, height: nat, target: Rgba, fill: Rgba, gates: Gates)

  /** `move_pos`'s test: the pixel is on the canvas, its colour matches the colour being
      spread over and does not match the fill colour. */
  predicate Admits(img: seq<byte>, q: Point, g: Growth)
    requires |img| == g.width * g.height * 4
  {
    InBounds(q, g.width, g.height) &&
    (LinInBounds(q, g.width, g.height);
     var c := ColorAt(img, Offset(q, g.width));
     Near(c, g.target) && Far(c, g.fill))
  }

  function Left(p: Point): Point { Point(p.x - 1, p.y) }
  function Up(p: Point): Point { Point(p.x, p.y - 1) }
  function Right(p: Point): Point { Point(p.x + 1, p.y) }
  function Down(p: Point): Point { Point(p.x, p.y + 1) }

  /** Whether q is one of the four axis neighbours of p. */
  predicate AxisNeighbour(p: Point, q: Point) {
    q == Left(p) || q == Up(p) || q == Right(p) || q == Down(p)
  }

  /** Whether q is one of the eight neighbours of p. */
  predicate Adjacent(p: Point, q: Point) {
    p != q && Abs(p.x - q.x) <= 1 && Abs(p.y - q.y) <= 1
  }

  function Only(ok: bool, q: Point): set<Point> {
    if ok then {q} else {}
  }

  /** The outcome of the test on each of the eight neighbours of a pixel. */
  datatype Tests = Tests(l: bool, u: bool, r: bool, d: bool, ul: bool, ur: bool, dr: bool, dl: bool)

  function TestsAt(img: seq<byte>, p: Point, g: Growth): (t: Tests)
    requires |img| == g.width * g.height * 4
  {
    Tests(Admits(img, Left(p), g), Admits(img, Up(p), g), Admits(img, Right(p), g), Admits(img, Down(p), g),
          Admits(img, Up(Left(p)), g), Admits(img, Up(Right(p)), g),
          Admits(img, Down(Right(p)), g), Admits(img, Down(Left(p)), g))
  }

  /** `acc` with the neighbours of p admitted, in the order the moves are made: each axis
      neighbour whose test passes, then each corner whose two adjacent axis moves were
      admitted, whose gate is set and whose own test passes. */
  function Gather(acc: set<Point>, p: Point, t: Tests, gates: Gates): set<Point> {
    acc + Only(t.l, Left(p)) + Only(t.u, Up(p)) + Only(t.r, Right(p)) + Only(t.d, Down(p))
    + Only(t.l && t.u && gates.upLeft && t.ul, Up(Left(p)))
    + Only(t.u && t.r && gates.upRight && t.ur, Up(Right(p)))
    + Only(t.r && t.d && gates.downRight && t.dr, Down(Right(p)))
    + Only(t.d && t.l && gates.downLeft && t.dl, Down(Left(p)))
  }

  /** Expanding p over `img`: what `Gather` admits given the tests on `img`. */
  function Expand(acc: set<Point>, img: seq<byte>, p: Point, g: Growth): set<Point>
    requires |img| == g.width * g.height * 4
  {
    Gather(acc, p, TestsAt(img, p, g), g.gates)
  }

  lemma GatherSound(acc: set<Point>, p: Point, t: Tests, gates: Gates, q: Point)
    requires q in Gather(acc, p, t, gates) && q !in acc
    ensures || (q == Left(p) && t.l) || (q == Up(p) && t.u) || (q == Right(p) && t.r) || (q == Down(p) && t.d)
            || (q == Up(Left(p)) && t.ul) || (q == Up(Right(p)) && t.ur)
            || (q == Down(Right(p)) && t.dr) || (q == Down(Left(p)) && t.dl)
  {
  }

  /** Everything admitted is a neighbour that passes the test. */
  lemma ExpandSound(acc: set<Point>, img: seq<byte>, p: Point, g: Growth, q: Point)
    requires |img| == g.width * g.height * 4
    requires q in Expand(acc, img, p, g) && q !in acc
    ensures Admits(img, q, g) && Adjacent(p, q)
  {
    GatherSound(acc, p, TestsAt(img, p, g), g.gates, q);
  }

  /** An axis neighbour is admitted exactly when it passes the test. */
  lemma ExpandAxis(img: seq<byte>, p: Point, g: Growth, q: Point)
    requires |img| == g.width * g.height * 4 && AxisNeighbour(p, q)
    ensures q in Expand({}, img, p, g) <==> Admits(img, q, g)
  {
    if q in Expand({}, img, p, g) {
      ExpandSound({}, img, p, g, q);
    }
  }

  /** A corner is admitted exactly when its gate is set, both adjacent axis moves were
      admitted and the corner passes the test. */
  lemma ExpandCorners(img: seq<byte>, p: Point, g: Growth)
    requires |img| == g.width * g.height * 4
    ensures Up(Left(p)) in Expand({}, img, p, g) <==>
      g.gates.upLeft && Admits(img, Left(p), g) && Admits(img, Up(p), g) && Admits(img, Up(Left(p)), g)
    ensures Up(Right(p)) in Expand({}, img, p, g) <==>
      g.gates.upRight && Admits(img, Up(p), g) && Admits(img, Right(p), g) && Admits(img, Up(Right(p)), g)
    ensures Down(Right(p)) in Expand({}, img, p, g) <==>
      g.gates.downRight && Admits(img, Right(p), g) && Admits(img, Down(p), g) && Admits(img, Down(Right(p)), g)
    ensures Down(Left(p)) in Expand({}, img, p, g) <==>
      g.gates.downLeft && Admits(img, Down(p), g) && Admits(img, Left(p), g) && Admits(img, Down(Left(p)), g)
  {
    GatherCorners(p, TestsAt(img, p, g), g.gates);
  }

  lemma GatherCorners(p: Point, t: Tests, gates: Gates)
    ensures Up(Left(p)) in Gather({}, p, t, gates) <==> gates.upLeft && t.l && t.u && t.ul
    ensures Up(Right(p)) in Gather({}, p, t, gates) <==> gates.upRight && t.u && t.r && t.ur
    ensures Down(Right(p)) in Gather({}, p, t, gates) <==> gates.downRight && t.r && t.d && t.dr
    ensures Down(Left(p)) in Gather({}, p, t, gates) <==> gates.downLeft && t.d && t.l && t.dl
  {
  }

  /** Painting one frontier pixel with the fill colour (`Image::paint` at the pixel). */
  function Painted(img: seq<byte>, p: Point, g: Growth): (r: seq<byte>)
    requires |img| == g.width * g.height * 4 && InBounds(p, g.width, g.height)
    ensures |r| == |img|
  {
    LinInBounds(p, g.width, g.height);
    SetColor(img, Offset(p, g.width), g.fill)
  }

  /** Whether every listed pixel is on the canvas. */
  predicate OnCanvas(order: seq<Point>, g: Growth) {
    forall k :: 0 <= k < |order| ==> InBounds(order[k], g.width, g.height)
  }

  /** One growth pass over the frontier taken in the order `order`, from position i on,
      having admitted `acc` so far: each frontier pixel is painted, then expanded over the
      image as it is at that moment. Gives the final image and the new frontier. */
  function Sweep(img: seq<byte>, order: seq<Point>, i: nat, acc: set<Point>, g: Growth): (r: (seq<byte>, set<Point>))
    requires |img| == g.width * g.height * 4 && i <= |order| && OnCanvas(order, g)
    ensures |r.0| == |img|
    decreases |order| - i
  {
    if i == |order| then (img, acc)
    else
      var img1 := Painted(img, order[i], g);
      Sweep(img1, order, i + 1, Expand(acc, img1, order[i], g), g)
  }

  /** The pixel q after painting p: the fill colour at p, unchanged elsewhere. */
  lemma PaintedAt(img: seq<byte>, p: Point, g: Growth, q: Point)
    requires |img| == g.width * g.height * 4 && InBounds(p, g.width, g.height) && InBounds(q, g.width, g.height)
    ensures (LinInBounds(q, g.width, g.height);
             ColorAt(Painted(img, p, g), Offset(q, g.width)) ==
               if q == p then g.fill else ColorAt(img, Offset(q, g.width)))
  {
    LinInBounds(q, g.width, g.height);
    LinInBounds(p, g.width, g.height);
    if q != p {
      OffsetsApart(p, q, g.width);
      SetColorElsewhere(img, Offset(p, g.width), g.fill, Offset(q, g.width));
    }
  }

  /** A pass paints every frontier pixel with the fill colour and writes no other pixel. */
  lemma {:induction false} SweepPaints(img: seq<byte>, order: seq<Point>, i: nat, acc: set<Point>, g: Growth, q: Point)
    requires |img| == g.width * g.height * 4 && i <= |order| && OnCanvas(order, g)
    requires InBounds(q, g.width, g.height)
    ensures (LinInBounds(q, g.width, g.height);
             ColorAt(Sweep(img, order, i, acc, g).0, Offset(q, g.width)) ==
               if q in order[i..] then g.fill else ColorAt(img, Offset(q, g.width)))
    decreases |order| - i
  {
    LinInBounds(q, g.width, g.height);
    if i < |order| {
      var img1 := Painted(img, order[i], g);
      SweepPaints(img1, order, i + 1, Expand(acc, img1, order[i], g), g, q);
      PaintedAt(img, order[i], g, q);
      assert order[i..] == [order[i]] + order[i + 1..];
    }
  }

  /** A pass only adds to what was admitted before it. */
  lemma {:induction false} SweepKeeps(img: seq<byte>, order: seq<Point>, i: nat, acc: set<Point>, g: Growth)
    requires |img| == g.width * g.height * 4 && i <= |order| && OnCanvas(order, g)
    ensures acc <= Sweep(img, order, i, acc, g).1
    decreases |order| - i
  {
    if i < |order| {
      var img1 := Painted(img, order[i], g);
      SweepKeeps(img1, order, i + 1, Expand(acc, img1, order[i], g), g);
    }
  }

  /** Whether pixel q passes the test against its colour in `img` and neighbours one of
      the frontier pixels from position i on. */
  predicate AdmittedFrom(img: seq<byte>, order: seq<Point>, i: nat, q: Point, g: Growth)
    requires |img| == g.width * g.height * 4
  {
    Admits(img, q, g) && exists k :: i <= k < |order| && Adjacent(order[k], q)
  }

  /** Every pixel a pass admits is a neighbour of a frontier pixel that, in the image as
      it was before the pass, is on the canvas, matches the colour spread over and does
      not match the fill colour (a pixel painted earlier in the pass matches the fill
      colour, so it is never admitted). */
  lemma {:induction false} SweepSound(img: seq<byte>, order: seq<Point>, i: nat, acc: set<Point>, g: Growth, q: Point)
    requires |img| == g.width * g.height * 4 && i <= |order| && OnCanvas(order, g)
    requires q in Sweep(img, order, i, acc, g).1 && q !in acc
    ensures AdmittedFrom(img, order, i, q, g)
    decreases |order| - i
  {
    var p := order[i];
    var img1 := Painted(img, p, g);
    var e := Expand(acc, img1, p, g);
    if q in e {
      ExpandSound(acc, img1, p, g, q);
      PaintedAt(img, p, g, q);
      NearOrFar(g.fill, g.fill);
      assert Adjacent(order[i], q);
    } else {
      SweepSound(img1, order, i + 1, e, g, q);
      PaintedAt(img, p, g, q);
      NearOrFar(g.fill, g.fill);
      var k :| i + 1 <= k < |order| && Adjacent(order[k], q);
      assert i <= k < |order|;
    }
  }

  /** A pass admits every axis neighbour of a frontier pixel that passes the test
      and is not itself on the frontier. */
  lemma {:induction false} SweepComplete(img: seq<byte>, order: seq<Point>, i: nat, acc: set<Point>, g: Growth, k: nat, q: Point)
    requires |img| == g.width * g.height * 4 && i <= k < |order| && OnCanvas(order, g)
    requires AxisNeighbour(order[k], q) && q !in order && Admits(img, q, g)
    ensures q in Sweep(img, order, i, acc, g).1
    decreases |order| - i
  {
    var p := order[i];
    var img1 := Painted(img, p, g);
    var e := Expand(acc, img1, p, g);
    PaintedAt(img, p, g, q);
    assert q != p;
    assert Admits(img1, q, g);
    if k == i {
      ExpandAxis(img1, p, g, q);
      assert q in e;
      SweepKeeps(img1, order, i + 1, e, g);
    } else {
      SweepComplete(img1, order, i + 1, e, g, k, q);
    }
  }

  /** With every corner gate closed, a pass admits axis neighbours only. */
  lemma {:induction false} SweepClosedGates(img: seq<byte>, order: seq<Point>, i: nat, acc: set<Point>, g: Growth, q: Point)
    requires |img| == g.width * g.height * 4 && i <= |order| && OnCanvas(order, g)
    requires g.gates == Gates(false, false, false, false)
    requires q in Sweep(img, order, i, acc, g).1 && q !in acc
    ensures exists k :: i <= k < |order| && AxisNeighbour(order[k], q)
    decreases |order| - i
  {
    var p := order[i];
    var img1 := Painted(img, p, g);
    var e := Expand(acc, img1, p, g);
    if q in e {
      assert AxisNeighbour(order[i], q);
    } else {
      SweepClosedGates(img1, order, i + 1, e, g, q);
      var k :| i + 1 <= k < |order| && AxisNeighbour(order[k], q);
      assert i <= k < |order|;
    }
  }

  // ---------------------------------------------------------------- the editor

  /** `Fill::process` on the editor. */
  method ProcessFill(op: FillOp, w: World) returns (r: FillOp)
    requires Process(op, w.Current()).Some?
    modifies w`state, w.fill
    ensures (r, w.Current()) == Process(op, old(w.Current())).value
  {
    r := op;
    if w.cursor.Inside? {
      var pos := w.cursor.pos;
      r := op.(buffer := w.layer);
      w.state := Filling;
      w.fill.alivePixels := {pos};
      var i := (pos.y * w.width + pos.x) * 4;
      w.fill.fillInColor := Rgba(w.layer[i], w.layer[i + 1], w.layer[i + 2], w.layer[i + 3]);
      w.fill.color := op.color;
      w.fill.speed := op.speed;
      w.fill.elapsed := 0.0;
    }
  }

  /** `Fill::undo` on the editor. */
  method UndoFill(op: FillOp, w: World) returns (r: FillOp)
    modifies w`layer
    ensures (r, w.Current()) == Swap(op, old(w.Current()))
  {
    r := op.(buffer := w.layer);
    w.layer := op.buffer;
  }

  /** `Fill::redo`: the undo swap again. */
  method RedoFill(op: FillOp, w: World) returns (r: FillOp)
    modifies w`layer
    ensures (r, w.Current()) == Swap(op, old(w.Current()))
  {
    r := UndoFill(op, w);
  }

  /** `move_pos`: tests pixel q against the layer and admits it into the new frontier. */
  method Move(w: World, q: Point, g: Growth, newSet: set<Point>) returns (ok: bool, next: set<Point>)
    requires |w.layer| == g.width * g.height * 4
    ensures ok == Admits(w.layer, q, g)
    ensures next == newSet + Only(ok, q)
  {
    ok := false;
    next := newSet;
    if 0 <= q.x < g.width && 0 <= q.y < g.height {
      LinInBounds(q, g.width, g.height);
      var i := (q.y * g.width + q.x) * 4;
      var col := Rgba(w.layer[i], w.layer[i + 1], w.layer[i + 2], w.layer[i + 3]);
      if Near(col, g.target) && Far(col, g.fill) {
        next := next + {q};
        ok := true;
      }
    }
  }

  /** A corner move, made only when `attempt` holds. */
  method MoveIf(attempt: bool, w: World, q: Point, g: Growth, newSet: set<Point>) returns (next: set<Point>)
    requires |w.layer| == g.width * g.height * 4
    ensures next == newSet + Only(attempt && Admits(w.layer, q, g), q)
  {
    next := newSet;
    if attempt {
      var ignored;
      ignored, next := Move(w, q, g, newSet);
    }
  }

  /** The moves made from one frontier pixel: the four axis moves, then each corner
      whose two axis moves succeeded and whose gate is set. */
  method ExpandPixel(w: World, p: Point, g: Growth, newSet: set<Point>) returns (next: set<Point>)
    requires |w.layer| == g.width * g.height * 4
    ensures next == Expand(newSet, w.layer, p, g)
  {
    var l, u, r, d;
    l, next := Move(w, Left(p), g, newSet);
    u, next := Move(w, Up(p), g, next);
    r, next := Move(w, Right(p), g, next);
    d, next := Move(w, Down(p), g, next);
    next := MoveIf(l && u && g.gates.upLeft, w, Up(Left(p)), g, next);
    next := MoveIf(u && r && g.gates.upRight, w, Up(Right(p)), g, next);
    next := MoveIf(r && d && g.gates.downRight, w, Down(Right(p)), g, next);
    next := MoveIf(d && l && g.gates.downLeft, w, Down(Left(p)), g, next);
  }

  /** One growth iteration over the frontier taken in the order `order`. */
  method GrowOnce(w: World, order: seq<Point>, g: Growth) returns (newSet: set<Point>)
    requires |w.layer| == g.width * g.height * 4 && OnCanvas(order, g)
    modifies w`layer
    ensures (w.layer, newSet) == Sweep(old(w.layer), order, 0, {}, g)
  {
    newSet := {};
    for i := 0 to |order|
      invariant |w.layer| == g.width * g.height * 4
      invariant Sweep(w.layer, order, i, newSet, g) == Sweep(old(w.layer), order, 0, {}, g)
    {
      var p := order[i];
      w.layer := Painted(w.layer, p, g);
      newSet := ExpandPixel(w, p, g, newSet);
    }
  }

  /** Whether `order` lists the pixels of `s`, each once (a hash set's iteration). */
  predicate Enumerates(order: seq<Point>, s: set<Point>) {
    && (forall k :: 0 <= k < |order| ==> order[k] in s)
    && (forall p :: p in s ==> p in order)
    && (forall j, k :: 0 <= j < k < |order| ==> order[j] != order[k])
  }

  /** Some iteration order of a set. */
  method Enumerate(s: set<Point>) returns (order: seq<Point>)
    ensures Enumerates(order, s)
  {
    order := [];
    var rest := s;
    while rest != {}
      invariant rest <= s
      invariant forall k :: 0 <= k < |order| ==> order[k] in s && order[k] !in rest
      invariant forall p :: p in s ==> p in rest || p in order
      invariant forall j, k :: 0 <= j < k < |order| ==> order[j] != order[k]
      decreases rest
    {
      var p :| p in rest;
      order := order + [p];
      rest := rest - {p};
    }
  }

  /** The growth a tick performs with the editor's fill state and the given gates. */
  function GrowthOf(v: Scene, gates: Gates): Growth {
    Growth(v.width, v.height, v.fillInColor, v.fillColor, gates)
  }

  /** `canvas_fill`: one tick of the animated fill. The clock advances by `delta`; then up
      to `times` growth iterations run, each over the current frontier in some order; a
      non-empty new frontier replaces the old one, an empty one sends the editor idle and
      ends the tick (`finished`). Every pixel the tick writes takes the fill colour, and
      the frontier stays on the canvas. */
  method CanvasFill(w: World, times: nat, delta: real, gates: Gates) returns (finished: bool)
    requires w.Valid() && |w.layer| == w.width * w.height * 4
    modifies w`layer, w`state, w.fill`alivePixels, w.fill`elapsed
    ensures w.Valid() && |w.layer| == |old(w.layer)|
    ensures w.fill.elapsed == old(w.fill.elapsed) + delta
    ensures finished ==> w.state == Idle
    ensures !finished ==> w.state == old(w.state)
    ensures !finished && times > 0 ==> w.fill.alivePixels != {}
    ensures forall q :: InBounds(q, w.width, w.height) ==>
      (LinInBounds(q, w.width, w.height);
       var c := ColorAt(w.layer, Offset(q, w.width));
       c == ColorAt(old(w.layer), Offset(q, w.width)) || c == w.fill.color)
  {
    w.fill.elapsed := w.fill.elapsed + delta;
    var g := GrowthOf(w.Current(), gates);
    finished := false;
    var i := 0;
    while i < times
      invariant 0 <= i <= times
      invariant w.Valid() && |w.layer| == w.width * w.height * 4
      invariant g == GrowthOf(w.Current(), gates)
      invariant w.fill.elapsed == old(w.fill.elapsed) + delta
      invariant w.state == old(w.state) && !finished
      invariant i > 0 ==> w.fill.alivePixels != {}
      invariant forall q :: InBounds(q, w.width, w.height) ==>
        (LinInBounds(q, w.width, w.height);
         var c := ColorAt(w.layer, Offset(q, w.width));
         c == ColorAt(old(w.layer), Offset(q, w.width)) || c == w.fill.color)
      decreases times - i
    {
      var order := Enumerate(w.fill.alivePixels);
      ghost var before := w.layer;
      var newSet := GrowOnce(w, order, g);
      forall q | InBounds(q, w.width, w.height)
        ensures (LinInBounds(q, w.width, w.height);
                 var c := ColorAt(w.layer, Offset(q, w.width));
                 c == ColorAt(old(w.layer), Offset(q, w.width)) || c == w.fill.color)
      {
        SweepPaints(before, order, 0, {}, g, q);
      }
      if newSet == {} {
        w.state := Idle;
        finished := true;
        break;
      }
      forall q | q in newSet
        ensures InBounds(q, w.width, w.height)
      {
        SweepSound(before, order, 0, {}, g, q);
      }
      w.fill.alivePixels := newSet;
      i := i + 1;
    }
  }
}
