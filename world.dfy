/** The resources of the editor that the command centre's operations read and write:
    the canvas (its size and cursor), the bytes of the active layer's first frame, the
    pending operation state, the brush colour, the stroke buffer and the animated fill's
    state. The framework only locates these; here they are plain fields. */
module Editor {
  import opened Pixels
  import opened Buffer
  import opened Brush

  /** What the editor is busy with (the pending `NextState<OperationState>`). */
  datatype OperationState = Idle | Painting | Filling

  /** The animated fill's state: the frontier, the colour the fill spreads over, the
      colour it paints, its speed and the seconds it has run. */
  class FillState {
    var alivePixels: set<Point>
    var fillInColor: Rgba
    var color: Rgba
    var speed: real
    var elapsed: real

    constructor ()
      ensures alivePixels == {} && fillInColor == Transparent && color == Transparent
      ensures speed == 0.0 && elapsed == 0.0
    {
      alivePixels := {};
      fillInColor := Transparent;
      color := Transparent;
      speed := 0.0;
      elapsed := 0.0;
    }
  }

  /** Everything an operation can observe or change, as one value. */
  datatype Scene = Scene(
    width: nat, height: nat, cursor: Cursor,
    layer: seq<byte>, state: OperationState, brushColor: Rgba,
    changed: map<Point, Rgba>, scratch: seq<byte>,
    alive: set<Point>, fillInColor: Rgba, fillColor: Rgba, speed: real, elapsed: real)

  /** A scene the editor can be in: the cursor is on the canvas when inside it, the
      stroke buffer records canvas positions only, the layer holds whole pixels and the
      frontier lies on the canvas. */
  ghost predicate Good(v: Scene) {
    && (v.cursor.Inside? ==> InBounds(v.cursor.pos, v.width, v.height))
    && (forall p :: p in v.changed ==> OnRow(p, v.width))
    && |v.layer| % 4 == 0
    && (forall p :: p in v.alive ==> InBounds(p, v.width, v.height))
  }

  class World {
    const width: nat
    const height: nat
    var cursor: Cursor
    /** The bytes of the active layer's first frame. */
    var layer: seq<byte>
    var state: OperationState
    const brush: BrushState
    const buffer: ImageBuffer
    const fill: FillState

    function Current(): Scene
      reads this, brush, buffer, fill
    {
      Scene(width, height, cursor, layer, state, brush.color,
        buffer.changed, buffer.data,
        fill.alivePixels, fill.fillInColor, fill.color, fill.speed, fill.elapsed)
    }

    ghost predicate Valid()
      reads this, brush, buffer, fill
    {
      Good(Current())
    }

    /** A blank canvas of the given size with the cursor outside it. */
    constructor (width: nat, height: nat)
      ensures this.width == width && this.height == height
      ensures layer == Zeros(width * height * 4) && state == Idle && cursor == Outside
      ensures fresh(brush) && fresh(buffer) && fresh(fill)
      ensures Valid()
    {
      this.width := width;
      this.height := height;
      cursor := Outside;
      layer := Zeros(width * height * 4);
      state := Idle;
      brush := new BrushState();
      buffer := new ImageBuffer();
      fill := new FillState();
    }
  }
}
