/** The stroke buffer of the command-centre generation (buffer.rs): a map from pixel
    position to the colour painted there during the current stroke, mirrored into a
    scratch image, and applied onto a layer when the stroke ends. */
module Buffer {
  import opened Pixels

  /** The colour pixel k has after applying the recorded colours `m` to `image`. */
  function PixelAfter(image: seq<byte>, m: map<Point, Rgba>, width: int, k: nat): Rgba
    requires 4 * k + 4 <= |image|
  {
    if width > 0 && PointOf(k, width) in m then m[PointOf(k, width)] else ColorAt(image, 4 * k)
  }

  /** The first n pixels of `image` with the recorded colours `m` written over them. */
  function OverlayN(image: seq<byte>, m: map<Point, Rgba>, width: int, n: nat): (r: seq<byte>)
    requires 4 * n <= |image|
    ensures |r| == 4 * n
  {
    if n == 0 then [] else OverlayN(image, m, width, n - 1) + Bytes(PixelAfter(image, m, width, n - 1))
  }

  /** `image` with every recorded colour of `m` written at its pixel: the reference
      meaning of applying a stroke buffer, independent of the order of the writes. */
  function Overlay(image: seq<byte>, m: map<Point, Rgba>, width: int): (r: seq<byte>)
    requires |image| % 4 == 0
    ensures |r| == |image|
  {
    OverlayN(image, m, width, |image| / 4)
  }

  lemma {:induction false} OverlayNAt(image: seq<byte>, m: map<Point, Rgba>, width: int, n: nat, k: nat)
    requires 4 * n <= |image| && k < n
    ensures ColorAt(OverlayN(image, m, width, n), 4 * k) == PixelAfter(image, m, width, k)
  {
    var prev := OverlayN(image, m, width, n - 1);
    assert OverlayN(image, m, width, n) == prev + Bytes(PixelAfter(image, m, width, n - 1));
    if k < n - 1 {
      OverlayNAt(image, m, width, n - 1, k);
      assert ColorAt(prev + Bytes(PixelAfter(image, m, width, n - 1)), 4 * k) == ColorAt(prev, 4 * k);
    }
  }

  /** Applying writes each recorded colour at its pixel and keeps every other pixel. */
  lemma OverlayAt(image: seq<byte>, m: map<Point, Rgba>, width: int, q: Point)
    requires |image| % 4 == 0 && OnRow(q, width) && Offset(q, width) + 4 <= |image|
    ensures ColorAt(Overlay(image, m, width), Offset(q, width)) ==
      if q in m then m[q] else ColorAt(image, Offset(q, width))
  {
    var k := Lin(q, width);
    PointOfLin(q, width);
    assert k >= 0 by {
      MulLe(0, q.y, width);
    }
    OverlayNAt(image, m, width, |image| / 4, k);
  }

  lemma {:induction false} OverlayNIdentity(image: seq<byte>, m: map<Point, Rgba>, width: int, n: nat)
    requires 4 * n <= |image|
    requires width <= 0 || m == map[]
    ensures OverlayN(image, m, width, n) == image[..4 * n]
  {
    if n > 0 {
      OverlayNIdentity(image, m, width, n - 1);
      var i := 4 * (n - 1);
      assert PixelAfter(image, m, width, n - 1) == ColorAt(image, i);
      assert Bytes(ColorAt(image, i)) == image[i..i + 4];
      assert image[..i + 4] == image[..i] + image[i..i + 4];
    }
  }

  /** Applying an empty buffer changes nothing. */
  lemma OverlayIdentity(image: seq<byte>, m: map<Point, Rgba>, width: int)
    requires |image| % 4 == 0
    requires width <= 0 || m == map[]
    ensures Overlay(image, m, width) == image
  {
    OverlayNIdentity(image, m, width, |image| / 4);
    assert image[..|image|] == image;
  }

  /** Recording one more colour adds one more four-byte write. */
  lemma OverlayAdd(image: seq<byte>, m: map<Point, Rgba>, width: int, p: Point, c: Rgba)
    requires |image| % 4 == 0 && OnRow(p, width) && Offset(p, width) + 4 <= |image|
    requires p !in m
    ensures Overlay(image, m[p := c], width) == SetColor(Overlay(image, m, width), Offset(p, width), c)
  {
    var a := Overlay(image, m[p := c], width);
    var b := SetColor(Overlay(image, m, width), Offset(p, width), c);
    forall q | OnRow(q, width) && Offset(q, width) + 4 <= |a|
      ensures ColorAt(a, Offset(q, width)) == ColorAt(b, Offset(q, width))
    {
      OverlayAt(image, m[p := c], width, q);
      OverlayAt(image, m, width, q);
      if q != p {
        OffsetsApart(p, q, width);
        SetColorElsewhere(Overlay(image, m, width), Offset(p, width), c, Offset(q, width));
      }
    }
    SamePixels(a, b, width);
  }

  /** Applying the same buffer twice is the same as applying it once. */
  lemma OverlayIdempotent(image: seq<byte>, m: map<Point, Rgba>, width: int)
    requires |image| % 4 == 0
    ensures Overlay(Overlay(image, m, width), m, width) == Overlay(image, m, width)
  {
    if width <= 0 {
      OverlayIdentity(image, m, width);
    } else {
      var once := Overlay(image, m, width);
      var twice := Overlay(once, m, width);
      forall q | OnRow(q, width) && Offset(q, width) + 4 <= |twice|
        ensures ColorAt(twice, Offset(q, width)) == ColorAt(once, Offset(q, width))
      {
        OverlayAt(once, m, width, q);
        OverlayAt(image, m, width, q);
      }
      SamePixels(twice, once, width);
    }
  }

  /** Whether every recorded pixel lies inside `image`, so that applying cannot index
      out of range. */
  predicate Fits(m: map<Point, Rgba>, width: int, size: int) {
    forall p :: p in m ==> Offset(p, width) + 4 <= size
  }

  /** The recorded colours restricted to the positions not in `todo`. */
  function Without(m: map<Point, Rgba>, todo: set<Point>): map<Point, Rgba> {
    map p | p in m && p !in todo :: m[p]
  }

  /** Whether `data` shows every recorded colour of `m` at its pixel. */
  ghost predicate Mirrored(m: map<Point, Rgba>, data: seq<byte>, width: int) {
    forall p :: p in m ==> 0 <= Offset(p, width) && Offset(p, width) + 4 <= |data| && ColorAt(data, Offset(p, width)) == m[p]
  }

  /** Recording a colour and writing it at its pixel keeps the mirror. */
  lemma MirroredPaint(m: map<Point, Rgba>, data: seq<byte>, width: int, pos: Point, c: Rgba)
    requires forall p :: p in m ==> OnRow(p, width)
    requires Mirrored(m, data, width) && OnRow(pos, width) && Offset(pos, width) + 4 <= |data|
    ensures Mirrored(m[pos := c], SetColor(data, Offset(pos, width), c), width)
  {
    forall p | p in m && p != pos
      ensures ColorAt(SetColor(data, Offset(pos, width), c), Offset(p, width)) == m[p]
    {
      MirroredOne(m, data, width, pos, c, p);
    }
  }

  lemma MirroredOne(m: map<Point, Rgba>, data: seq<byte>, width: int, pos: Point, c: Rgba, p: Point)
    requires OnRow(p, width) && OnRow(pos, width) && p != pos
    requires 0 <= Offset(p, width) && Offset(p, width) + 4 <= |data| && Offset(pos, width) + 4 <= |data|
    requires 0 <= Offset(pos, width)
    ensures ColorAt(SetColor(data, Offset(pos, width), c), Offset(p, width)) == ColorAt(data, Offset(p, width))
  {
    OffsetsApart(pos, p, width);
    SetColorElsewhere(data, Offset(pos, width), c, Offset(p, width));
  }

  class ImageBuffer {
    /** The colour recorded at each position during the current stroke. */
    var changed: map<Point, Rgba>
    /** The bytes of the scratch image the buffer's handle names. */
    var data: seq<byte>

    /** Every recorded position is an unsigned position inside a row of the canvas. */
    ghost predicate Valid(width: int)
      reads this
    {
      forall p :: p in changed ==> OnRow(p, width)
    }

    /** The scratch image shows every recorded colour at its pixel. */
    ghost predicate Mirrors(width: int)
      reads this
    {
      Valid(width) && Mirrored(changed, data, width)
    }

    /** An empty buffer over a 128x128 transparent scratch image. */
    constructor ()
      ensures changed == map[] && data == Zeros(128 * 128 * 4)
    {
      changed := map[];
      data := Zeros(128 * 128 * 4);
    }

    /** Records `color` at `pos` and writes it into the scratch image; reports false,
        writing nothing, when that position already held that colour. */
    method Paint(pos: Point, color: Rgba, width: int) returns (painted: bool)
      requires OnRow(pos, width) && Offset(pos, width) + 4 <= |data|
      modifies this
      ensures changed == old(changed)[pos := color]
      ensures painted == !(pos in old(changed) && old(changed)[pos] == color)
      ensures data == if painted then SetColor(old(data), Offset(pos, width), color) else old(data)
      ensures old(Valid(width)) ==> Valid(width)
      ensures old(Mirrors(width)) ==> Mirrors(width)
    {
      var previous := if pos in changed then Some(changed[pos]) else None;
      changed := changed[pos := color];
      if previous == Some(color) {
        return false;
      }
      var i := (pos.x + pos.y * width) * 4;
      if old(Mirrors(width)) {
        MirroredPaint(old(changed), data, width, pos, color);
      }
      data := data[i := color.r][i + 1 := color.g][i + 2 := color.b][i + 3 := color.a];
      painted := true;
    }

    /** Writes every recorded colour onto `image` (in the map's unspecified iteration
        order), which gives the order-independent `Overlay`. */
    method ApplyToImage(width: int, image: seq<byte>) returns (result: seq<byte>)
      requires Valid(width) && |image| % 4 == 0 && Fits(changed, width, |image|)
      ensures result == Overlay(image, changed, width)
    {
      var todo := changed.Keys;
      result := image;
      OverlayIdentity(image, map[], width);
      assert Without(changed, todo) == map[];
      while todo != {}
        invariant todo <= changed.Keys
        invariant result == Overlay(image, Without(changed, todo), width)
        decreases todo
      {
        var pos :| pos in todo;
        var color := changed[pos];
        var i := (pos.x + pos.y * width) * 4;
        OverlayAdd(image, Without(changed, todo), width, pos, color);
        assert Without(changed, todo - {pos}) == Without(changed, todo)[pos := color];
        result := result[i := color.r];
        result := result[i + 1 := color.g];
        result := result[i + 2 := color.b];
        result := result[i + 3 := color.a];
        todo := todo - {pos};
      }
      assert Without(changed, todo) == changed;
    }

    /** Forgets the stroke and blanks the scratch image to width*height pixels. */
    method Clear(width: nat, height: nat)
      modifies this
      ensures changed == map[] && data == Zeros(width * height * 4)
      ensures Mirrors(width)
    {
      changed := map[];
      data := Zeros(width * height * 4);
    }
  }
}
