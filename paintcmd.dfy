/** The paint operation of the command centre (commands/paint.rs): starting a stroke
    snapshots the layer, ending it applies the stroke buffer, and undo and redo swap
    the snapshot with the layer. */
module PaintCmd {
  import opened Pixels
  import opened Buffer
  import opened Editor

  /** A paint operation: the layer snapshot it holds (empty until processed) and the
      colour of its stroke. */
  datatype PaintOp = PaintOp(buffer: seq<byte>, color: Rgba)

  /** A new operation holds the stroke colour and no snapshot. */
  function NewPaint(color: Rgba): (op: PaintOp)
    ensures op.buffer == [] && op.color == color
  {
    PaintOp([], color)
  }

  /** The default operation paints white. */
  const DefaultPaint: PaintOp := NewPaint(White)

  /** Processing: the editor starts painting in the operation's colour, the operation
      keeps a copy of the layer, and the scratch image becomes a blank canvas. */
  function Process(op: PaintOp, v: Scene): (r: (PaintOp, Scene))
  {
    (op.(buffer := v.layer),
     v.(state := Painting, brushColor := op.color, scratch := Zeros(v.width * v.height * 4)))
  }

  /** Undo and redo: the snapshot and the layer trade places. */
  function Swap(op: PaintOp, v: Scene): (r: (PaintOp, Scene))
  {
    (op.(buffer := v.layer), v.(layer := op.buffer))
  }

  lemma ProcessSnapshots(op: PaintOp, v: Scene)
    ensures Process(op, v).0 == PaintOp(v.layer, op.color)
    ensures Process(op, v).1.layer == v.layer && Process(op, v).1.state == Painting
    ensures Process(op, v).1.brushColor == op.color
    ensures |Process(op, v).1.scratch| == v.width * v.height * 4
    ensures forall j :: 0 <= j < |Process(op, v).1.scratch| ==> Process(op, v).1.scratch[j] == 0
  {
  }

  /** Swapping twice restores both the snapshot and the layer. */
  lemma SwapTwice(op: PaintOp, v: Scene)
    ensures Swap(Swap(op, v).0, Swap(op, v).1) == (op, v)
  {
  }

  /** Ending the stroke: the editor goes idle, the recorded pixels are written into the
      layer (None when one lies outside it, where the source indexes out of range), and
      the stroke buffer is cleared. */
  function StopPaint(v: Scene): (r: Option<Scene>)
    requires |v.layer| % 4 == 0
    ensures r.Some? <==> Fits(v.changed, v.width, |v.layer|)
  {
    if Fits(v.changed, v.width, |v.layer|) then
      Some(v.(state := Idle, layer := Overlay(v.layer, v.changed, v.width),
              changed := map[], scratch := Zeros(v.width * v.height * 4)))
    else None
  }

  /** What ending a stroke does to each pixel: a recorded pixel takes its recorded
      colour, every other pixel keeps its colour; the stroke buffer is emptied. */
  lemma StopPaintWrites(v: Scene, q: Point)
    requires Good(v) && Fits(v.changed, v.width, |v.layer|)
    requires OnRow(q, v.width) && Offset(q, v.width) + 4 <= |v.layer|
    ensures StopPaint(v).Some?
    ensures |StopPaint(v).value.layer| == |v.layer|
    ensures ColorAt(StopPaint(v).value.layer, Offset(q, v.width)) ==
      if q in v.changed then v.changed[q] else ColorAt(v.layer, Offset(q, v.width))
    ensures StopPaint(v).value.changed == map[] && StopPaint(v).value.state == Idle
  {
    OverlayAt(v.layer, v.changed, v.width, q);
  }

  /** `Paint::process` on the editor. */
  method ProcessPaint(op: PaintOp, w: World) returns (r: PaintOp)
    modifies w, w.brush`color, w.buffer`data
    ensures (r, w.Current()) == Process(op, old(w.Current()))
  {
    w.state := Painting;
    w.brush.color := op.color;
    r := op.(buffer := w.layer);
    w.buffer.data := Zeros(w.width * w.height * 4);
  }

  /** `Paint::undo` on the editor. */
  method UndoPaint(op: PaintOp, w: World) returns (r: PaintOp)
    modifies w`layer
    ensures (r, w.Current()) == Swap(op, old(w.Current()))
  {
    r := op.(buffer := w.layer);
    w.layer := op.buffer;
  }

  /** `Paint::redo` on the editor: the same swap as undo. */
  method RedoPaint(op: PaintOp, w: World) returns (r: PaintOp)
    modifies w`layer
    ensures (r, w.Current()) == Swap(op, old(w.Current()))
  {
    r := op.(buffer := w.layer);
    w.layer := op.buffer;
  }

  /** `StopPaint::process` on the editor. */
  method ProcessStopPaint(w: World)
    requires w.Valid() && Fits(w.buffer.changed, w.width, |w.layer|)
    modifies w`state, w`layer, w.buffer
    ensures StopPaint(old(w.Current())).Some? && w.Current() == StopPaint(old(w.Current())).value
  {
    w.state := Idle;
    w.layer := w.buffer.ApplyToImage(w.width, w.layer);
    w.buffer.Clear(w.width, w.height);
  }

  /** `canvas_paint`: while painting, the pixel under the cursor is recorded in the
      stroke buffer in the brush colour; nothing happens with the cursor off the canvas. */
  method CanvasPaint(w: World) returns (painted: bool)
    requires w.Valid()
    requires w.cursor.Inside? ==> Offset(w.cursor.pos, w.width) + 4 <= |w.buffer.data|
    modifies w.buffer
    ensures w.cursor.Outside? ==> !painted && unchanged(w.buffer)
    ensures w.cursor.Inside? ==>
      var pos := w.cursor.pos;
      && w.buffer.changed == old(w.buffer.changed)[pos := w.brush.color]
      && painted == !(pos in old(w.buffer.changed) && old(w.buffer.changed)[pos] == w.brush.color)
      && w.buffer.data == if painted then SetColor(old(w.buffer.data), Offset(pos, w.width), w.brush.color)
                          else old(w.buffer.data)
    ensures w.Valid()
  {
    painted := false;
    if w.cursor.Inside? {
      painted := w.buffer.Paint(w.cursor.pos, w.brush.color, w.width);
    }
  }
}
