/** The geometry resolver: places each run as one or two rectangles using
    the font metrics and the cell size (`RenderLine::rects`, `create_rect`,
    `RenderLines::rects`). Pixel values are exact reals. */
module Geometry {
  import opened Grid
  import opened RealMath
  import opened RenderLines

  /** How a rectangle is filled (`RectStyle`). */
  datatype RectStyle = Solid | Dashed(period: real)

  /** A placed rectangle in padded pixel space, y pointing down (`RenderRect`). */
  datatype RenderRect = RenderRect(x: real, y: real, width: real, height: real, color: Rgb, alpha: real, style: RectStyle)

  /** The font metrics the resolver reads, in pixels relative to the baseline. */
  datatype Metrics = Metrics(
    descent: real,
    underlinePosition: real,
    underlineThickness: real,
    strikeoutPosition: real,
    strikeoutThickness: real)

  /** The window and cell dimensions the resolver and the renderer read. */
  datatype SizeInfo = SizeInfo(
    width: real,
    height: real,
    cellWidth: real,
    cellHeight: real,
    paddingX: real,
    paddingY: real)

  /** Bottom edge of the run's row, before padding. */
  function LineBottom(run: Run, size: SizeInfo): real {
    (run.start.line as real + 1.0) * size.cellHeight
  }

  /** Top edge of a rectangle, with the padding taken off again. */
  function Top(r: RenderRect, size: SizeInfo): real {
    r.y - size.paddingY
  }

  /** `create_rect`: one bar for `run`, centred `position` pixels above the
      baseline, at least one pixel thick, kept inside the run's row. */
  function CreateRect(run: Run, size: SizeInfo, descent: real, position: real, thickness: real, style: RectStyle): (r: RenderRect)
    ensures r.height >= 1.0 && r.height >= thickness && (r.height == thickness || r.height == 1.0)
    ensures r.x == run.start.column as real * size.cellWidth + size.paddingX
    ensures r.width == (run.end.column + 1 - run.start.column) as real * size.cellWidth
    ensures r.color == run.color && r.alpha == 1.0 && r.style == style
    // The bar never reaches into the next row.
    ensures Top(r, size) + r.height <= LineBottom(run, size)
    // Unclamped, the top is the first whole pixel at or below the ideal top edge.
    ensures var ideal := LineBottom(run, size) + descent - position - r.height / 2.0;
            Ceil(ideal) as real <= LineBottom(run, size) - r.height ==> Top(r, size) == Ceil(ideal) as real
    // When the ideal bar fits in the row, its centre sits on the requested
    // line or less than one pixel below it.
    ensures var want := LineBottom(run, size) + descent - position;
            want - r.height / 2.0 <= LineBottom(run, size) - r.height ==>
              want <= Top(r, size) + r.height / 2.0 < want + 1.0
    // Whenever the rounded top would put the bar past the row's bottom
    // edge, the bar is pushed up to sit on that edge.
    ensures var ideal := LineBottom(run, size) + descent - position - r.height / 2.0;
            Ceil(ideal) as real > LineBottom(run, size) - r.height ==>
              Top(r, size) + r.height == LineBottom(run, size)
  {
    var startX := run.start.column as real * size.cellWidth;
    var endX := (run.end.column + 1) as real * size.cellWidth;
    var width := endX - startX;
    var thick := Max(thickness, 1.0);
    var lineBottom := LineBottom(run, size);
    var baseline := lineBottom + descent;
    var y0 := Ceil(baseline - position - thick / 2.0) as real;
    var maxY := lineBottom - thick;
    var y := if y0 > maxY then maxY else y0;
    RenderRect(startX + size.paddingX, y + size.paddingY, width, thick, run.color, 1.0, style)
  }

  /** The dash period of a dotted underline: twice the rounded thickness,
      so each dot is a whole number of pixels and at least one. */
  function DottedPeriod(thickness: real): (p: real)
    ensures p >= 2.0 && IsInteger(p / 2.0)
    ensures p / 2.0 - 0.5 <= Max(thickness, 1.0)
    ensures thickness >= 1.0 ==> Max(thickness, 1.0) <= p / 2.0 + 0.5
  {
    Max(Round(thickness) as real, 1.0) * 2.0
  }

  /** The dash period of a dashed underline: twice a quarter cell rounded,
      so each dash is a whole number of pixels and at least two. */
  function DashedPeriod(cellWidth: real): (p: real)
    ensures p >= 4.0 && IsInteger(p / 2.0)
    ensures p / 2.0 - 0.5 <= Max(cellWidth / 4.0, 2.0)
    ensures cellWidth >= 8.0 ==> cellWidth / 4.0 <= p / 2.0 + 0.5
  {
    Max(Round(cellWidth / 4.0) as real, 2.0) * 2.0
  }

  /** Taking the floor before or after rounding gives the same period. */
  lemma {:induction false} PeriodFloorBeforeRounding(thickness: real, cellWidth: real)
    ensures DottedPeriod(thickness) == Round(Max(thickness, 1.0)) as real * 2.0
    ensures DashedPeriod(cellWidth) == Round(Max(cellWidth / 4.0, 2.0)) as real * 2.0
  {
    MaxRoundCommute(thickness, 1);
    MaxRoundCommute(cellWidth / 4.0, 2);
  }

  /** How many rectangles one run of a kind becomes. */
  function RectsPerRun(kind: Kind): nat {
    if kind == DoubleUnderline then 2 else 1
  }

  /** `RenderLine::rects`: the rectangles for one run of `kind`. */
  function LineRects(run: Run, kind: Kind, metrics: Metrics, size: SizeInfo): (rs: seq<RenderRect>)
    ensures |rs| == RectsPerRun(kind)
    ensures forall i :: 0 <= i < |rs| ==>
              && rs[i].color == run.color
              && rs[i].x == run.start.column as real * size.cellWidth + size.paddingX
              && rs[i].width == (run.end.column + 1 - run.start.column) as real * size.cellWidth
              && rs[i].height >= 1.0
              && Top(rs[i], size) + rs[i].height <= LineBottom(run, size)
              && (rs[i].style.Solid? <==> kind in {Underline, DoubleUnderline, Strikeout})
    ensures kind == DoubleUnderline ==>
              && rs[0] == CreateRect(run, size, metrics.descent, 0.25 * metrics.descent, metrics.underlineThickness, Solid)
              && rs[1] == CreateRect(run, size, metrics.descent, 0.75 * metrics.descent, metrics.underlineThickness, Solid)
    ensures kind == Underline ==>
              rs[0] == CreateRect(run, size, metrics.descent, metrics.underlinePosition, metrics.underlineThickness, Solid)
    ensures kind == Strikeout ==>
              rs[0] == CreateRect(run, size, metrics.descent, metrics.strikeoutPosition, metrics.strikeoutThickness, Solid)
    ensures kind == DottedUnderline ==>
              rs[0] == CreateRect(run, size, metrics.descent, metrics.underlinePosition, metrics.underlineThickness,
                                  Dashed(DottedPeriod(metrics.underlineThickness)))
    ensures kind == DashedUnderline ==>
              rs[0] == CreateRect(run, size, metrics.descent, metrics.underlinePosition, metrics.underlineThickness,
                                  Dashed(DashedPeriod(size.cellWidth)))
  {
    var d := metrics.descent;
    match kind
    case DoubleUnderline =>
      [CreateRect(run, size, d, 0.25 * d, metrics.underlineThickness, Solid),
       CreateRect(run, size, d, 0.75 * d, metrics.underlineThickness, Solid)]
    case Underline =>
      [CreateRect(run, size, d, metrics.underlinePosition, metrics.underlineThickness, Solid)]
    case Strikeout =>
      [CreateRect(run, size, d, metrics.strikeoutPosition, metrics.strikeoutThickness, Solid)]
    case DottedUnderline =>
      [CreateRect(run, size, d, metrics.underlinePosition, metrics.underlineThickness,
                  Dashed(DottedPeriod(metrics.underlineThickness)))]
    case DashedUnderline =>
      [CreateRect(run, size, d, metrics.underlinePosition, metrics.underlineThickness,
                  Dashed(DashedPeriod(size.cellWidth)))]
  }

  /** A bar placed further above the baseline never ends up lower. */
  lemma {:induction false} CreateRectMonotone(run: Run, size: SizeInfo, descent: real, p1: real, p2: real, thickness: real, style: RectStyle)
    requires p1 >= p2
    ensures CreateRect(run, size, descent, p1, thickness, style).y <= CreateRect(run, size, descent, p2, thickness, style).y
  {
    var h := Max(thickness, 1.0);
    var base := LineBottom(run, size) + descent - h / 2.0;
    assert Ceil(base - p1) <= Ceil(base - p2);
  }

  /** With the usual negative descent the second bar of a double underline
      sits at or below the first, and both have the same shape. */
  lemma DoubleUnderlineOrder(run: Run, metrics: Metrics, size: SizeInfo)
    requires metrics.descent <= 0.0
    ensures var rs := LineRects(run, DoubleUnderline, metrics, size);
            rs[0].y <= rs[1].y && rs[0].height == rs[1].height && rs[0].width == rs[1].width && rs[0].x == rs[1].x
  {
    var d := metrics.descent;
    CreateRectMonotone(run, size, d, 0.25 * d, 0.75 * d, metrics.underlineThickness, Solid);
  }

  /** The rectangles of a kind's runs, run by run, in list order. */
  function KindRects(kind: Kind, runs: seq<Run>, metrics: Metrics, size: SizeInfo): (rs: seq<RenderRect>)
    ensures |rs| == RectsPerRun(kind) * |runs|
  {
    if |runs| == 0 then []
    else
      var c := RectsPerRun(kind);
      assert c * |runs| == c * (|runs| - 1) + c;
      KindRects(kind, runs[..|runs| - 1], metrics, size) + LineRects(runs[|runs| - 1], kind, metrics, size)
  }

  /** The rectangles of the first `m` runs are a prefix of the kind's
      output; as `KindRects` of `m + 1` runs ends with run `m`'s own
      rectangles, each run's block sits right after those of the runs
      before it. */
  lemma {:induction false} KindRectsBlocks(kind: Kind, runs: seq<Run>, m: nat, metrics: Metrics, size: SizeInfo)
    requires m <= |runs|
    ensures KindRects(kind, runs[..m], metrics, size) <= KindRects(kind, runs, metrics, size)
  {
    var n := |runs|;
    if m == n {
      assert runs[..m] == runs;
    } else {
      var init := runs[..n - 1];
      KindRectsBlocks(kind, init, m, metrics, size);
      assert init[..m] == runs[..m];
      var head := KindRects(kind, init, metrics, size);
      var rs := KindRects(kind, runs, metrics, size);
      assert head <= rs;
      var pre := KindRects(kind, runs[..m], metrics, size);
      assert pre == head[..|pre|] == rs[..|pre|];
    }
  }

  /** The concatenated rectangles of the kinds listed in `order`. */
  function RectsIn(lines: Lines, order: seq<Kind>, metrics: Metrics, size: SizeInfo): seq<RenderRect> {
    if |order| == 0 then []
    else KindRects(order[0], RunsOf(lines, order[0]), metrics, size) + RectsIn(lines, order[1..], metrics, size)
  }

  /** `order` lists each kind that has an entry exactly once: the iteration
      order of the underlying hash map, which is not specified. */
  predicate KeyOrder(lines: Lines, order: seq<Kind>) {
    && (forall k :: k in lines <==> k in order)
    && (forall i, j :: 0 <= i < j < |order| ==> order[i] != order[j])
  }

  /** Total number of rectangles the runs of `lines` become. */
  function RectCount(lines: Lines, order: seq<Kind>): nat {
    if |order| == 0 then 0
    else RectsPerRun(order[0]) * |RunsOf(lines, order[0])| + RectCount(lines, order[1..])
  }

  /** `RenderLines::rects`: all runs of all kinds, each turned into its
      rectangles; kinds come in the map's iteration order. */
  function Rects(lines: Lines, order: seq<Kind>, metrics: Metrics, size: SizeInfo): (rs: seq<RenderRect>)
    requires KeyOrder(lines, order)
    ensures |rs| == RectCount(lines, order)
    ensures forall k :: k in lines ==>
              multiset(KindRects(k, lines[k], metrics, size)) <= multiset(rs)
    // Up to order, exactly the rectangles of every kind's runs, each kind
    // visited once; a kind without an entry contributes none.
    ensures multiset(rs) == multiset(RectsIn(lines, AllKinds, metrics, size))
  {
    RectsInContents(lines, order, metrics, size);
    RectsAllKinds(lines, order, metrics, size);
    RectsIn(lines, order, metrics, size)
  }

  lemma {:induction false} RectsInContents(lines: Lines, order: seq<Kind>, metrics: Metrics, size: SizeInfo)
    ensures |RectsIn(lines, order, metrics, size)| == RectCount(lines, order)
    ensures forall i :: 0 <= i < |order| ==>
              multiset(KindRects(order[i], RunsOf(lines, order[i]), metrics, size)) <= multiset(RectsIn(lines, order, metrics, size))
  {
    if |order| > 0 {
      RectsInContents(lines, order[1..], metrics, size);
      var head := KindRects(order[0], RunsOf(lines, order[0]), metrics, size);
      var tail := RectsIn(lines, order[1..], metrics, size);
      assert multiset(head + tail) == multiset(head) + multiset(tail);
      forall i | 1 <= i < |order|
        ensures multiset(KindRects(order[i], RunsOf(lines, order[i]), metrics, size)) <= multiset(head + tail)
      {
        assert order[i] == order[1..][i - 1];
      }
    }
  }

  /** Splitting the kind order splits the rectangle list. */
  lemma {:induction false} RectsInAppend(lines: Lines, a: seq<Kind>, b: seq<Kind>, metrics: Metrics, size: SizeInfo)
    ensures RectsIn(lines, a + b, metrics, size) == RectsIn(lines, a, metrics, size) + RectsIn(lines, b, metrics, size)
  {
    if |a| > 0 {
      assert (a + b)[1..] == a[1..] + b;
      RectsInAppend(lines, a[1..], b, metrics, size);
    } else {
      assert a + b == b;
    }
  }

  /** Taking one kind out of the order takes exactly its rectangles out. */
  lemma RectsInRemove(lines: Lines, o: seq<Kind>, i: nat, metrics: Metrics, size: SizeInfo)
    requires i < |o|
    ensures multiset(RectsIn(lines, o, metrics, size))
            == multiset(KindRects(o[i], RunsOf(lines, o[i]), metrics, size)) + multiset(RectsIn(lines, o[..i] + o[i + 1..], metrics, size))
  {
    var tail := [o[i]] + o[i + 1..];
    assert o == o[..i] + tail;
    RectsInAppend(lines, o[..i], tail, metrics, size);
    assert tail[1..] == o[i + 1..];
    RectsInAppend(lines, o[..i], o[i + 1..], metrics, size);
  }

  lemma MultisetRemove(o1: seq<Kind>, o2: seq<Kind>, i: nat)
    requires multiset(o1) == multiset(o2) && |o1| > 0 && i < |o2| && o2[i] == o1[0]
    ensures multiset(o1[1..]) == multiset(o2[..i] + o2[i + 1..])
  {
    assert o1 == [o1[0]] + o1[1..];
    assert o2 == o2[..i] + [o2[i]] + o2[i + 1..];
    forall x ensures multiset(o1[1..])[x] == multiset(o2[..i] + o2[i + 1..])[x] {
      assert multiset(o1)[x] == multiset(o2)[x];
    }
  }

  /** Any two orders that are permutations of each other give the same
      rectangles, up to order. */
  lemma {:induction false} RectsInPermutation(lines: Lines, o1: seq<Kind>, o2: seq<Kind>, metrics: Metrics, size: SizeInfo)
    requires multiset(o1) == multiset(o2)
    ensures multiset(RectsIn(lines, o1, metrics, size)) == multiset(RectsIn(lines, o2, metrics, size))
    decreases |o1|
  {
    if |o1| > 0 {
      var k := o1[0];
      assert k in multiset(o2);
      var i :| 0 <= i < |o2| && o2[i] == k;
      var rest := o2[..i] + o2[i + 1..];
      MultisetRemove(o1, o2, i);
      RectsInPermutation(lines, o1[1..], rest, metrics, size);
      RectsInRemove(lines, o2, i, metrics, size);
    } else {
      assert |o2| == |multiset(o2)| == 0;
    }
  }

  /** The five kinds, each once, in the order `RenderLines::update` visits them. */
  const AllKinds: seq<Kind> := [Underline, DoubleUnderline, Strikeout, DottedUnderline, DashedUnderline]

  lemma AllKindsOnce(k: Kind)
    ensures multiset(AllKinds)[k] == 1
  {
    match k
    case Underline =>
    case DoubleUnderline =>
    case Strikeout =>
    case DottedUnderline =>
    case DashedUnderline =>
  }

  /** The kinds of `ks` that have no entry in `lines`. */
  function Absent(lines: Lines, ks: seq<Kind>): seq<Kind> {
    if |ks| == 0 then []
    else (if ks[0] in lines then [] else [ks[0]]) + Absent(lines, ks[1..])
  }

  lemma {:induction false} AbsentMultiplicity(lines: Lines, ks: seq<Kind>, k: Kind)
    ensures multiset(Absent(lines, ks))[k] == if k in lines then 0 else multiset(ks)[k]
  {
    if |ks| > 0 {
      AbsentMultiplicity(lines, ks[1..], k);
      assert ks == [ks[0]] + ks[1..];
    }
  }

  /** Kinds without an entry have no runs, so they add no rectangles. */
  lemma {:induction false} AbsentNoRects(lines: Lines, ks: seq<Kind>, metrics: Metrics, size: SizeInfo)
    ensures RectsIn(lines, Absent(lines, ks), metrics, size) == []
  {
    if |ks| > 0 {
      AbsentNoRects(lines, ks[1..], metrics, size);
      if ks[0] !in lines {
        var a := Absent(lines, ks);
        assert a[0] == ks[0] && a[1..] == Absent(lines, ks[1..]);
        assert RunsOf(lines, ks[0]) == [];
      } else {
        assert Absent(lines, ks) == Absent(lines, ks[1..]);
      }
    }
  }

  /** Whatever the iteration order, the output holds the same rectangles as
      visiting all five kinds in a fixed order. */
  lemma RectsAllKinds(lines: Lines, order: seq<Kind>, metrics: Metrics, size: SizeInfo)
    requires KeyOrder(lines, order)
    ensures multiset(RectsIn(lines, order, metrics, size)) == multiset(RectsIn(lines, AllKinds, metrics, size))
  {
    var absent := Absent(lines, AllKinds);
    forall k ensures multiset(order + absent)[k] == multiset(AllKinds)[k] {
      KeyOrderMultiplicity(order, k);
      AbsentMultiplicity(lines, AllKinds, k);
      AllKindsOnce(k);
    }
    assert multiset(order + absent) == multiset(AllKinds);
    RectsInPermutation(lines, order + absent, AllKinds, metrics, size);
    RectsInAppend(lines, order, absent, metrics, size);
    AbsentNoRects(lines, AllKinds, metrics, size);
    assert RectsIn(lines, order, metrics, size) + [] == RectsIn(lines, order, metrics, size);
  }

  /** In a list without repeats each element occurs once. */
  lemma {:induction false} KeyOrderMultiplicity(order: seq<Kind>, k: Kind)
    requires forall i, j :: 0 <= i < j < |order| ==> order[i] != order[j]
    ensures multiset(order)[k] == if k in order then 1 else 0
  {
    if |order| > 0 {
      var tail := order[1..];
      assert forall i, j :: 0 <= i < j < |tail| ==> tail[i] != tail[j] by {
        forall i, j | 0 <= i < j < |tail| ensures tail[i] != tail[j] {
          assert tail[i] == order[i + 1] && tail[j] == order[j + 1];
        }
      }
      KeyOrderMultiplicity(tail, k);
      assert order == [order[0]] + tail;
      assert order[0] !in tail by {
        forall j | 0 <= j < |tail| ensures tail[j] != order[0] {
          assert tail[j] == order[j + 1];
        }
      }
    }
  }

  /** The hash map's iteration order does not matter: every admissible
      order yields the same rectangles, up to order. */
  lemma RectsOrderIndependent(lines: Lines, o1: seq<Kind>, o2: seq<Kind>, metrics: Metrics, size: SizeInfo)
    requires KeyOrder(lines, o1) && KeyOrder(lines, o2)
    ensures multiset(Rects(lines, o1, metrics, size)) == multiset(Rects(lines, o2, metrics, size))
  {
    forall k ensures multiset(o1)[k] == multiset(o2)[k] {
      KeyOrderMultiplicity(o1, k);
      KeyOrderMultiplicity(o2, k);
    }
    assert multiset(o1) == multiset(o2);
    RectsInPermutation(lines, o1, o2, metrics, size);
  }
}
