/** The rectangle rasteriser's CPU side: each rectangle becomes two
    triangles of vertices in normalised device coordinates (`add_rect`),
    accumulated for the whole batch (the vertex loop of `draw`). */
module RectRenderer {
  import opened Grid
  import opened RealMath
  import opened Geometry

  /** One vertex as uploaded: NDC position, RGBA bytes, dash period in NDC. */
  datatype Vertex = Vertex(x: real, y: real, r: byte, g: byte, b: byte, a: byte, dashPeriod: real)

  /** Period given to solid rectangles: twice the full NDC span of 2. */
  const SolidDashPeriod: real := 2.0 * 2.0

  /** `(alpha * 255.) as u8`: truncation toward zero, saturating at both ends. */
  function AlphaByte(alpha: real): (b: byte)
    ensures alpha * 255.0 <= 0.0 ==> b == 0
    ensures alpha * 255.0 >= 255.0 ==> b == 255
    ensures 0.0 < alpha * 255.0 < 255.0 ==> b as real <= alpha * 255.0 < b as real + 1.0
  {
    var v := alpha * 255.0;
    if v <= 0.0 then 0 else if v >= 255.0 then 255 else v.Floor as byte
  }

  /** The dash period a rectangle's vertices carry. */
  function DashPeriod(style: RectStyle, halfWidth: real): (p: real)
    requires halfWidth != 0.0
    // A solid rectangle's period exceeds any NDC distance, so no gap is ever drawn.
    ensures style.Solid? ==> p == 4.0 && p > 2.0
    // A dashed rectangle's period, scaled back to pixels, is its pixel period.
    ensures style.Dashed? ==> p * halfWidth == style.period
  {
    match style
    case Solid => SolidDashPeriod
    case Dashed(period) => period / halfWidth
  }

  /** Half the window size: the scale between pixels and NDC. */
  function HalfWidth(size: SizeInfo): real {
    size.width / 2.0
  }

  function HalfHeight(size: SizeInfo): real {
    size.height / 2.0
  }

  /** Pixel coordinates of an NDC x or y; the inverses of the mapping `add_rect` applies. */
  function PixelX(x: real, halfWidth: real): real {
    (x + 1.0) * halfWidth
  }

  function PixelY(y: real, halfHeight: real): real {
    (1.0 - y) * halfHeight
  }

  /** The six vertices of one rectangle: top-right, top-left, bottom-left,
      then bottom-right, top-right, bottom-left. */
  function Quad(halfWidth: real, halfHeight: real, rect: RenderRect): (q: seq<Vertex>)
    requires halfWidth != 0.0 && halfHeight != 0.0
    ensures |q| == 6
    ensures forall i :: 0 <= i < 6 ==>
              && q[i].r == rect.color.r && q[i].g == rect.color.g && q[i].b == rect.color.b
              && q[i].a == AlphaByte(rect.alpha)
              && q[i].dashPeriod == DashPeriod(rect.style, halfWidth)
    ensures PixelX(q[0].x, halfWidth) == rect.x + rect.width && PixelY(q[0].y, halfHeight) == rect.y
    ensures PixelX(q[1].x, halfWidth) == rect.x && PixelY(q[1].y, halfHeight) == rect.y
    ensures PixelX(q[2].x, halfWidth) == rect.x && PixelY(q[2].y, halfHeight) == rect.y + rect.height
    ensures PixelX(q[3].x, halfWidth) == rect.x + rect.width && PixelY(q[3].y, halfHeight) == rect.y + rect.height
    ensures q[4] == q[0] && q[5] == q[2]
  {
    var x := rect.x / halfWidth - 1.0;
    var y := -rect.y / halfHeight + 1.0;
    var width := rect.width / halfWidth;
    var height := rect.height / halfHeight;
    var a := AlphaByte(rect.alpha);
    var period := DashPeriod(rect.style, halfWidth);
    var c := rect.color;
    var v0 := Vertex(x, y, c.r, c.g, c.b, a, period);
    var v1 := Vertex(x, y - height, c.r, c.g, c.b, a, period);
    var v2 := Vertex(x + width, y, c.r, c.g, c.b, a, period);
    var v3 := Vertex(x + width, y - height, c.r, c.g, c.b, a, period);
    assert PixelX(x + width, halfWidth) == rect.x + rect.width by {
      assert (x + width + 1.0) * halfWidth == (rect.x / halfWidth + rect.width / halfWidth) * halfWidth;
    }
    assert PixelY(y, halfHeight) == rect.y by {
      assert -rect.y / halfHeight == -(rect.y / halfHeight);
    }
    assert PixelY(y - height, halfHeight) == rect.y + rect.height by {
      assert -rect.y / halfHeight == -(rect.y / halfHeight);
      assert 1.0 - (y - height) == rect.y / halfHeight + rect.height / halfHeight;
      assert (rect.y / halfHeight + rect.height / halfHeight) * halfHeight
          == (rect.y / halfHeight) * halfHeight + (rect.height / halfHeight) * halfHeight;
    }
    [v2, v0, v1, v3, v2, v1]
  }

  /** `add_rect`: append the rectangle's six vertices, keeping those already there. */
  function AddRect(vertices: seq<Vertex>, halfWidth: real, halfHeight: real, rect: RenderRect): (vs: seq<Vertex>)
    requires halfWidth != 0.0 && halfHeight != 0.0
    ensures |vs| == |vertices| + 6
    ensures vs[..|vertices|] == vertices
    ensures forall j :: 0 <= j < 6 ==> vs[|vertices| + j] == Quad(halfWidth, halfHeight, rect)[j]
  {
    vertices + Quad(halfWidth, halfHeight, rect)
  }

  /** Twice the signed area of triangle (a, b, c); positive when counter-clockwise. */
  function Cross(a: Vertex, b: Vertex, c: Vertex): real {
    (b.x - a.x) * (c.y - a.y) - (c.x - a.x) * (b.y - a.y)
  }

  /** The two triangles of a quad wind the same way and each covers half of
      the rectangle's NDC area; they share the top-right/bottom-left
      diagonal, and both end on the same (provoking) bottom-left vertex. */
  lemma QuadTriangles(halfWidth: real, halfHeight: real, rect: RenderRect)
    requires halfWidth != 0.0 && halfHeight != 0.0
    ensures var q := Quad(halfWidth, halfHeight, rect);
            var area := (rect.width / halfWidth) * (rect.height / halfHeight);
            && Cross(q[0], q[1], q[2]) == area
            && Cross(q[3], q[4], q[5]) == area
            && q[0] == q[4] && q[2] == q[5]
  {
    var q := Quad(halfWidth, halfHeight, rect);
    var w := rect.width / halfWidth;
    var h := rect.height / halfHeight;
    assert q[1].x == q[0].x - w && q[1].y == q[0].y;
    assert q[2].x == q[0].x - w && q[2].y == q[0].y - h;
    assert q[3].x == q[0].x && q[3].y == q[0].y - h;
  }

  /** The vertex-building part of `draw`: clear the list, then add every
      rectangle in order. */
  method Draw(size: SizeInfo, rects: seq<RenderRect>) returns (vertices: seq<Vertex>)
    requires size.width != 0.0 && size.height != 0.0
    ensures |vertices| == 6 * |rects|
    ensures forall i, j :: 0 <= i < |rects| && 0 <= j < 6 ==>
              vertices[6 * i + j] == Quad(HalfWidth(size), HalfHeight(size), rects[i])[j]
  {
    var halfWidth := HalfWidth(size);
    var halfHeight := HalfHeight(size);
    vertices := [];
    var n := 0;
    while n < |rects|
      invariant 0 <= n <= |rects|
      invariant |vertices| == 6 * n
      invariant forall i, j :: 0 <= i < n && 0 <= j < 6 ==>
                  vertices[6 * i + j] == Quad(halfWidth, halfHeight, rects[i])[j]
    {
      ghost var before := vertices;
      vertices := AddRect(vertices, halfWidth, halfHeight, rects[n]);
      forall i, j | 0 <= i < n + 1 && 0 <= j < 6
        ensures vertices[6 * i + j] == Quad(halfWidth, halfHeight, rects[i])[j]
      {
        if i < n {
          assert vertices[6 * i + j] == vertices[..|before|][6 * i + j] == before[6 * i + j];
        }
      }
      n := n + 1;
    }
  }
}
