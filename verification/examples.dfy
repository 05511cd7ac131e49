/** Worked cases of the pipeline on small concrete inputs. */
module Examples {
  import opened Grid
  import opened RenderLines
  import opened Geometry

  const White := Rgb(255, 255, 255)

  function UnderlinedCell(line: nat, column: nat, color: Rgb, wide: bool): Cell {
    Cell(Point(line, column), color, {Underline}, wide)
  }

  /** Four underlined white cells on row 0 make one run from column 0 to 3,
      drawn as a single 40-pixel solid bar one pixel high, pushed up onto
      the row's bottom edge. */
  lemma FourCellUnderline()
    ensures var cells := seq(4, i requires 0 <= i => UnderlinedCell(0, i, White, false));
            var run := Run(Point(0, 0), Point(0, 3), White);
            && RunsOf(Aggregate(cells), Underline) == [run]
            && LineRects(run, Underline, Metrics(4.0, 2.0, 1.0, 0.0, 0.0), SizeInfo(800.0, 600.0, 10.0, 20.0, 0.0, 0.0))
               == [RenderRect(0.0, 19.0, 40.0, 1.0, White, 1.0, Solid)]
  {
    var cells := seq(4, i requires 0 <= i => UnderlinedCell(0, i, White, false));
    AdjacentCellsOneRun(cells, Underline, 0, 0, White);
  }

  /** A 1.5-pixel bar one pixel above the baseline of a 20-pixel row: the
      ideal top 18.25 rounds up to 19, past the last top that fits (18.5),
      so the bar is pushed up to end on the row's bottom edge. */
  lemma FractionalThicknessClamp()
    ensures CreateRect(Run(Point(0, 0), Point(0, 0), White), SizeInfo(800.0, 600.0, 10.0, 20.0, 0.0, 0.0),
                       0.0, 1.0, 1.5, Solid)
            == RenderRect(0.0, 18.5, 10.0, 1.5, White, 1.0, Solid)
  {
  }

  /** Neighbouring cells of four different colours never merge. */
  lemma DistinctColoursFourRuns()
    ensures var cells := seq(4, i requires 0 <= i < 4 => UnderlinedCell(0, i, Rgb(i as byte, 0, 0), false));
            |RunsOf(Aggregate(cells), Underline)| == 4
  {
    var cells := seq(4, i requires 0 <= i < 4 => UnderlinedCell(0, i, Rgb(i as byte, 0, 0), false));
    ColourChangesSplitRuns(cells, Underline);
  }

  /** A wide glyph stretches its run over the spacer column, and the next
      glyph after the spacer continues the same run. */
  lemma WideGlyphRun(line: nat, column: nat, color: Rgb)
    ensures var cells := [UnderlinedCell(line, column, color, true), UnderlinedCell(line, column + 2, color, false)];
            RunsOf(Aggregate(cells), Underline) == [Run(Point(line, column), Point(line, column + 2), color)]
  {
    var c0, c1 := UnderlinedCell(line, column, color, true), UnderlinedCell(line, column + 2, color, false);
    AggregateSnoc([], c0, Underline);
    assert [] + [c0] == [c0];
    var first := Run(Point(line, column), Point(line, column + 1), color);
    assert RunsOf(Aggregate([c0]), Underline) == [first];
    AggregateSnoc([c0], c1, Underline);
    assert [c0] + [c1] == [c0, c1];
    assert Continues(first, c1);
  }
}
