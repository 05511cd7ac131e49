/** One frame end to end: aggregate the decorated cells, resolve the runs
    into rectangles, and build the vertex batch for the single draw call. */
module Frame {
  import opened Grid
  import opened RenderLines
  import opened Geometry
  import opened RectRenderer

  /** The decoration part of a frame. `order` is the iteration order of the
      run map, which the caller does not control. */
  method RenderFrame(cells: seq<Cell>, order: seq<Kind>, metrics: Metrics, size: SizeInfo)
    returns (rects: seq<RenderRect>, vertices: seq<Vertex>)
    requires KeyOrder(Aggregate(cells), order)
    requires size.width != 0.0 && size.height != 0.0
    ensures rects == Rects(Aggregate(cells), order, metrics, size)
    ensures multiset(rects) == multiset(RectsIn(Aggregate(cells), AllKinds, metrics, size))
    ensures |rects| == RectCount(Aggregate(cells), order)
    ensures forall i :: 0 <= i < |rects| ==> rects[i].height >= 1.0
    ensures |vertices| == 6 * RectCount(Aggregate(cells), order)
    // Block i of the vertex batch is rectangle i's quad.
    ensures forall i, j :: 0 <= i < |rects| && 0 <= j < 6 ==>
              vertices[6 * i + j] == Quad(HalfWidth(size), HalfHeight(size), rects[i])[j]
  {
    var lines := Aggregate(cells);
    rects := Rects(lines, order, metrics, size);
    RectsHeights(lines, order, metrics, size);
    vertices := Draw(size, rects);
  }

  /** Every resolved rectangle is at least one pixel thick. */
  lemma RectsHeights(lines: Lines, order: seq<Kind>, metrics: Metrics, size: SizeInfo)
    requires KeyOrder(lines, order)
    ensures forall i :: 0 <= i < |Rects(lines, order, metrics, size)| ==> Rects(lines, order, metrics, size)[i].height >= 1.0
  {
    RectsInHeights(lines, order, metrics, size);
  }

  lemma {:induction false} RectsInHeights(lines: Lines, order: seq<Kind>, metrics: Metrics, size: SizeInfo)
    ensures forall i :: 0 <= i < |RectsIn(lines, order, metrics, size)| ==> RectsIn(lines, order, metrics, size)[i].height >= 1.0
  {
    if |order| > 0 {
      RectsInHeights(lines, order[1..], metrics, size);
      KindRectsHeights(order[0], RunsOf(lines, order[0]), metrics, size);
    }
  }

  lemma {:induction false} KindRectsHeights(kind: Kind, runs: seq<Run>, metrics: Metrics, size: SizeInfo)
    ensures forall i :: 0 <= i < |KindRects(kind, runs, metrics, size)| ==> KindRects(kind, runs, metrics, size)[i].height >= 1.0
  {
    if |runs| > 0 {
      KindRectsHeights(kind, runs[..|runs| - 1], metrics, size);
    }
  }
}
