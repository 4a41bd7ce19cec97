/** Shared pixel-buffer vocabulary: RGBA8 bytes laid out row-major, four bytes per
    pixel, pixel (x, y) of a canvas `width` pixels wide starting at byte (y*width + x)*4. */
module Pixels {

  type byte = b: int | 0 <= b < 256

  datatype Option<T> = None | Some(value: T) {
    function GetOr(default: T): T {
      match this
      case Some(v) => v
      case None => default
    }
  }

  /** A colour as its four RGBA8 channel values (what `Color::as_rgba_u8` yields). */
  datatype Rgba = Rgba(r: byte, g: byte, b: byte, a: byte)

  const White := Rgba(255, 255, 255, 255)
  const Transparent := Rgba(0, 0, 0, 0)

  /** An integer pixel coordinate (the source's `IVec2` / `UVec2`, or a cursor
      position after truncation to whole pixels). */
  datatype Point = Point(x: int, y: int)

  /** The canvas cursor: inside the canvas at a pixel, or somewhere outside it. */
  datatype Cursor = Inside(pos: Point) | Outside

  function Min(a: int, b: int): int { if a <= b then a else b }

  function Max(a: int, b: int): int { if a <= b then b else a }

  function Abs(a: int): nat { if a < 0 then -a else a }

  function Channel(c: Rgba, k: int): byte
    requires 0 <= k < 4
  {
    if k == 0 then c.r else if k == 1 then c.g else if k == 2 then c.b else c.a
  }

  function Bytes(c: Rgba): (s: seq<byte>)
    ensures |s| == 4 && forall k :: 0 <= k < 4 ==> s[k] == Channel(c, k)
  {
    [c.r, c.g, c.b, c.a]
  }

  /** In-bounds test used throughout: 0 <= x < width and 0 <= y < height. */
  predicate InBounds(p: Point, width: int, height: int) {
    0 <= p.x < width && 0 <= p.y < height
  }

  /** The pixel number of a point, row-major. */
  function Lin(p: Point, width: int): int { p.y * width + p.x }

  /** The byte at which a pixel starts: (x + y*width)*4. */
  function Offset(p: Point, width: int): int { Lin(p, width) * 4 }

  /** The point whose pixel number is n. */
  function PointOf(n: int, width: int): Point
    requires width > 0
  {
    Point(n % width, n / width)
  }

  function Zeros(n: nat): (z: seq<byte>)
    ensures |z| == n && forall j :: 0 <= j < n ==> z[j] == 0
  {
    seq(n, _ => 0)
  }

  /** The colour stored at byte offset i. */
  function ColorAt(s: seq<byte>, i: int): Rgba
    requires 0 <= i && i + 4 <= |s|
  {
    Rgba(s[i], s[i + 1], s[i + 2], s[i + 3])
  }

  /** Writing the four bytes of a colour at byte offset i. */
  function SetColor(s: seq<byte>, i: int, c: Rgba): (r: seq<byte>)
    requires 0 <= i && i + 4 <= |s|
    ensures |r| == |s|
    ensures ColorAt(r, i) == c
  {
    s[i := c.r][i + 1 := c.g][i + 2 := c.b][i + 3 := c.a]
  }

  lemma SetColorElsewhere(s: seq<byte>, i: int, c: Rgba, k: int)
    requires 0 <= i && i + 4 <= |s| && 0 <= k && k + 4 <= |s|
    requires i + 4 <= k || k + 4 <= i
    ensures ColorAt(SetColor(s, i, c), k) == ColorAt(s, k)
  {
  }

  /** A prefix one longer is the prefix and the next element. */
  lemma TakeSnoc<T>(s: seq<T>, n: nat)
    requires n < |s|
    ensures s[..n + 1] == s[..n] + [s[n]]
  {
  }

  lemma MulLe(a: int, b: int, c: int)
    requires a <= b && 0 <= c
    ensures a * c <= b * c
  {
    assert b * c - a * c == (b - a) * c;
  }

  /** Every in-bounds pixel lies inside a buffer of width*height*4 bytes. */
  lemma LinInBounds(p: Point, width: int, height: int)
    requires InBounds(p, width, height)
    ensures 0 <= Lin(p, width) < width * height
    ensures 0 <= Offset(p, width) && Offset(p, width) + 4 <= width * height * 4
  {
    MulLe(p.y, height - 1, width);
    MulLe(0, p.y, width);
    assert (height - 1) * width == width * height - width;
  }

  /** Two points whose x lies in 0..width have the same pixel number only if equal. */
  lemma {:induction false} LinInjective(p: Point, q: Point, width: int)
    requires 0 <= p.x < width && 0 <= q.x < width
    requires Lin(p, width) == Lin(q, width)
    ensures p == q
  {
    if p.y < q.y {
      MulLe(p.y + 1, q.y, width);
      assert false;
    } else if q.y < p.y {
      MulLe(q.y + 1, p.y, width);
      assert false;
    }
  }

  /** Distinct pixels of one row width occupy disjoint four-byte ranges. */
  lemma OffsetsApart(p: Point, q: Point, width: int)
    requires 0 <= p.x < width && 0 <= q.x < width && p != q
    ensures Offset(p, width) + 4 <= Offset(q, width) || Offset(q, width) + 4 <= Offset(p, width)
  {
    if Lin(p, width) == Lin(q, width) {
      LinInjective(p, q, width);
    }
  }

  lemma LinPointOf(n: int, width: int)
    requires width > 0
    ensures Lin(PointOf(n, width), width) == n
    ensures 0 <= PointOf(n, width).x < width
  {
  }

  lemma PointOfLin(p: Point, width: int)
    requires 0 <= p.x < width
    ensures PointOf(Lin(p, width), width) == p
  {
    LinPointOf(Lin(p, width), width);
    LinInjective(PointOf(Lin(p, width), width), p, width);
  }

  lemma PointOfInBounds(n: int, width: int, height: int)
    requires width > 0 && 0 <= n < width * height
    ensures InBounds(PointOf(n, width), width, height)
  {
    LinPointOf(n, width);
    var q := PointOf(n, width);
    if q.y < 0 {
      MulLe(q.y, -1, width);
      assert false;
    }
    if q.y >= height {
      MulLe(height, q.y, width);
      assert false;
    }
  }

  /** A pixel position with its column inside a row of `width` (an unsigned position of
      the canvas, possibly below the last row). */
  predicate OnRow(p: Point, width: int) {
    0 <= p.x < width && 0 <= p.y
  }

  /** Two buffers of whole pixels that agree on every pixel are equal. */
  lemma SamePixels(a: seq<byte>, b: seq<byte>, width: int)
    requires width > 0 && |a| == |b| && |a| % 4 == 0
    requires forall q :: OnRow(q, width) && Offset(q, width) + 4 <= |a| ==>
      ColorAt(a, Offset(q, width)) == ColorAt(b, Offset(q, width))
    ensures a == b
  {
    forall j | 0 <= j < |a|
      ensures a[j] == b[j]
    {
      var k := j / 4;
      var q := PointOf(k, width);
      LinPointOf(k, width);
      assert OnRow(q, width);
      assert Offset(q, width) == 4 * k && 4 * k + 4 <= |a|;
      assert ColorAt(a, 4 * k) == ColorAt(b, 4 * k);
    }
  }
}
