/** The line aggregator: folds a row-major stream of decorated cells into,
    per decoration kind, a list of horizontal runs (`RenderLines::update`). */
module RenderLines {
  import opened Grid

  /** One horizontal run of a decoration (`RenderLine`). */
  datatype Run = Run(start: Point, end: Point, color: Rgb)

  /** The per-kind run lists (`HashMap<Flags, Vec<RenderLine>>`). */
  type Lines = map<Kind, seq<Run>>

  /** The runs stored for `kind`; a kind never seen has none. */
  function RunsOf(lines: Lines, kind: Kind): seq<Run> {
    if kind in lines then lines[kind] else []
  }

  /** The point where a cell's decoration ends: a wide glyph also covers its
      spacer column. */
  function EndOf(cell: Cell): (p: Point)
    ensures p.line == cell.point.line
    ensures cell.point.column <= p.column <= cell.point.column + 1
    ensures p.column == cell.point.column <==> !cell.wide
  {
    if cell.wide then Point(cell.point.line, cell.point.column + 1) else cell.point
  }

  /** A cell continues a run when it has the run's colour and sits on the
      run's line immediately right of its end. */
  predicate Continues(run: Run, cell: Cell) {
    cell.fg == run.color && cell.point.column == run.end.column + 1 && cell.point.line == run.end.line
  }

  /** The run-list step for one kind the cell carries: extend the last run
      in place, or append a fresh run starting at the cell. */
  function UpdateRuns(runs: seq<Run>, cell: Cell): (rs: seq<Run>)
    ensures |runs| > 0 && Continues(runs[|runs| - 1], cell) ==>
              && |rs| == |runs|
              && rs[..|runs| - 1] == runs[..|runs| - 1]
              && rs[|runs| - 1].start == runs[|runs| - 1].start
              && rs[|runs| - 1].color == runs[|runs| - 1].color
              && rs[|runs| - 1].end == EndOf(cell)
    ensures !(|runs| > 0 && Continues(runs[|runs| - 1], cell)) ==>
              && |rs| == |runs| + 1
              && rs[..|runs|] == runs
              && rs[|runs|] == Run(cell.point, EndOf(cell), cell.fg)
  {
    if |runs| > 0 && Continues(runs[|runs| - 1], cell) then
      runs[..|runs| - 1] + [runs[|runs| - 1].(end := EndOf(cell))]
    else
      runs + [Run(cell.point, EndOf(cell), cell.fg)]
  }

  /** `update_flag`: a cell without the kind leaves everything alone;
      otherwise only the kind's own list takes the step. */
  function UpdateFlag(lines: Lines, cell: Cell, kind: Kind): (ls: Lines)
    ensures kind !in cell.flags ==> ls == lines
    ensures kind in cell.flags ==> RunsOf(ls, kind) == UpdateRuns(RunsOf(lines, kind), cell)
    ensures forall k :: k != kind ==> (k in ls <==> k in lines) && RunsOf(ls, k) == RunsOf(lines, k)
  {
    if kind !in cell.flags then lines
    else lines[kind := UpdateRuns(RunsOf(lines, kind), cell)]
  }

  /** `update`: the five kinds, one after another. */
  function Update(lines: Lines, cell: Cell): (ls: Lines)
    ensures forall k :: RunsOf(ls, k) == if k in cell.flags then UpdateRuns(RunsOf(lines, k), cell) else RunsOf(lines, k)
  {
    var l1 := UpdateFlag(lines, cell, Underline);
    var l2 := UpdateFlag(l1, cell, DoubleUnderline);
    var l3 := UpdateFlag(l2, cell, Strikeout);
    var l4 := UpdateFlag(l3, cell, DottedUnderline);
    var l5 := UpdateFlag(l4, cell, DashedUnderline);
    assert RunsOf(l5, Underline) == RunsOf(l1, Underline);
    assert RunsOf(l5, DoubleUnderline) == RunsOf(l2, DoubleUnderline);
    assert RunsOf(l1, DoubleUnderline) == RunsOf(lines, DoubleUnderline);
    assert RunsOf(l5, Strikeout) == RunsOf(l3, Strikeout);
    assert RunsOf(l2, Strikeout) == RunsOf(lines, Strikeout);
    assert RunsOf(l5, DottedUnderline) == RunsOf(l4, DottedUnderline);
    assert RunsOf(l3, DottedUnderline) == RunsOf(lines, DottedUnderline);
    assert RunsOf(l4, DashedUnderline) == RunsOf(lines, DashedUnderline);
    l5
  }

  /** The lines after a whole frame's cells have been fed in, starting
      from a fresh `RenderLines::new()`. */
  function Aggregate(cells: seq<Cell>): Lines {
    if |cells| == 0 then map[] else Update(Aggregate(cells[..|cells| - 1]), cells[|cells| - 1])
  }

  /** Feeding one more cell takes exactly one update step per kind it carries. */
  lemma AggregateSnoc(cells: seq<Cell>, cell: Cell, kind: Kind)
    ensures RunsOf(Aggregate(cells + [cell]), kind)
            == if kind in cell.flags then UpdateRuns(RunsOf(Aggregate(cells), kind), cell) else RunsOf(Aggregate(cells), kind)
  {
    assert (cells + [cell])[..|cells|] == cells;
  }

  // ---------------------------------------------------------------------
  // Invariants of the run lists.

  /** The shape `RenderLine::rects` asserts: one line, start not right of end. */
  predicate WellFormed(run: Run) {
    run.start.line == run.end.line && run.start.column <= run.end.column
  }

  /** `b` could have been merged into `a`. */
  predicate Mergeable(a: Run, b: Run) {
    a.color == b.color && a.end.line == b.start.line && b.start.column == a.end.column + 1
  }

  /** Every run well formed, and no two neighbouring runs mergeable. */
  predicate Valid(runs: seq<Run>) {
    && (forall i :: 0 <= i < |runs| ==> WellFormed(runs[i]))
    && (forall i :: 0 <= i < |runs| - 1 ==> !Mergeable(runs[i], runs[i + 1]))
  }

  /** One update step keeps a run list valid. */
  lemma {:induction false} UpdateRunsValid(runs: seq<Run>, cell: Cell)
    requires Valid(runs)
    ensures Valid(UpdateRuns(runs, cell))
  {
    var rs := UpdateRuns(runs, cell);
    var n := |runs|;
    if n > 0 && Continues(runs[n - 1], cell) {
      forall i | 0 <= i < |rs| ensures WellFormed(rs[i]) {
        if i < n - 1 {
          assert rs[i] == rs[..n - 1][i] == runs[..n - 1][i] == runs[i];
        }
      }
      forall i | 0 <= i < |rs| - 1 ensures !Mergeable(rs[i], rs[i + 1]) {
        assert rs[i] == rs[..n - 1][i] == runs[..n - 1][i] == runs[i];
        if i + 1 < n - 1 {
          assert rs[i + 1] == rs[..n - 1][i + 1] == runs[..n - 1][i + 1] == runs[i + 1];
        } else {
          assert rs[i + 1].start == runs[i + 1].start && rs[i + 1].color == runs[i + 1].color;
          assert !Mergeable(runs[i], runs[i + 1]);
        }
      }
    } else {
      forall i | 0 <= i < |rs| ensures WellFormed(rs[i]) {
        if i < n {
          assert rs[i] == rs[..n][i] == runs[i];
        }
      }
      forall i | 0 <= i < |rs| - 1 ensures !Mergeable(rs[i], rs[i + 1]) {
        assert rs[i] == rs[..n][i] == runs[i];
        if i + 1 < n {
          assert rs[i + 1] == rs[..n][i + 1] == runs[i + 1];
        }
      }
    }
  }

  /** Every run list a frame produces is valid: each run lies on one line
      with its start not right of its end, and greedy merging left no two
      neighbouring runs joinable. */
  lemma {:induction false} AggregateValid(cells: seq<Cell>)
    ensures forall k :: Valid(RunsOf(Aggregate(cells), k))
  {
    if |cells| > 0 {
      var prev := Aggregate(cells[..|cells| - 1]);
      AggregateValid(cells[..|cells| - 1]);
      forall k ensures Valid(RunsOf(Aggregate(cells), k)) {
        if k in cells[|cells| - 1].flags {
          UpdateRunsValid(RunsOf(prev, k), cells[|cells| - 1]);
        }
      }
    }
  }

  // ---------------------------------------------------------------------
  // Coverage: the runs cover exactly the decorated cells.

  /** A decorated pixel of the grid: a position and the colour drawn there. */
  datatype Pixel = Pixel(line: nat, column: nat, color: Rgb)

  predicate RunCovers(run: Run, p: Pixel) {
    p.line == run.start.line && run.start.column <= p.column <= run.end.column && p.color == run.color
  }

  predicate CellCovers(cell: Cell, p: Pixel) {
    p.line == cell.point.line && cell.point.column <= p.column <= EndOf(cell).column && p.color == cell.fg
  }

  /** Some run of the list covers `p`. */
  predicate RunsCover(runs: seq<Run>, p: Pixel) {
    |runs| > 0 && (RunsCover(runs[..|runs| - 1], p) || RunCovers(runs[|runs| - 1], p))
  }

  /** Some cell of the stream carrying `kind` covers `p`. */
  predicate CellsCover(cells: seq<Cell>, kind: Kind, p: Pixel) {
    |cells| > 0 && (CellsCover(cells[..|cells| - 1], kind, p) || (kind in cells[|cells| - 1].flags && CellCovers(cells[|cells| - 1], p)))
  }

  /** One update adds exactly the cell's own span to a list's coverage. */
  lemma {:induction false} UpdateRunsCover(runs: seq<Run>, cell: Cell, p: Pixel)
    requires Valid(runs)
    ensures RunsCover(UpdateRuns(runs, cell), p) <==> RunsCover(runs, p) || CellCovers(cell, p)
  {
    var rs := UpdateRuns(runs, cell);
    var n := |runs|;
    if n > 0 && Continues(runs[n - 1], cell) {
      assert rs[..n - 1] == runs[..n - 1];
      assert RunsCover(rs, p) <==> RunsCover(runs[..n - 1], p) || RunCovers(rs[n - 1], p);
      assert WellFormed(runs[n - 1]);
      assert RunCovers(rs[n - 1], p) <==> RunCovers(runs[n - 1], p) || CellCovers(cell, p);
    } else {
      assert rs[..n] == runs;
    }
  }

  /** The decorated pixels of a kind after a frame are exactly the spans of
      the cells that carried that kind: merging loses and invents nothing. */
  lemma {:induction false} AggregateCover(cells: seq<Cell>, kind: Kind, p: Pixel)
    ensures RunsCover(RunsOf(Aggregate(cells), kind), p) <==> CellsCover(cells, kind, p)
  {
    if |cells| > 0 {
      var init := cells[..|cells| - 1];
      var last := cells[|cells| - 1];
      AggregateCover(init, kind, p);
      if kind in last.flags {
        AggregateValid(init);
        UpdateRunsCover(RunsOf(Aggregate(init), kind), last, p);
      }
    }
  }

  // ---------------------------------------------------------------------
  // Ordering under a row-major stream.

  predicate AtOrBefore(p: Point, q: Point) {
    p == q || Before(p, q)
  }

  /** Runs listed in strictly increasing start order. */
  predicate Ordered(runs: seq<Run>) {
    forall i :: 0 <= i < |runs| - 1 ==> Before(runs[i].start, runs[i + 1].start)
  }

  /** No run starts after `q`. */
  predicate StartsBy(runs: seq<Run>, q: Point) {
    forall i :: 0 <= i < |runs| ==> AtOrBefore(runs[i].start, q)
  }

  lemma {:induction false} UpdateRunsOrdered(runs: seq<Run>, q: Point, cell: Cell)
    requires Ordered(runs) && StartsBy(runs, q)
    requires |runs| > 0 ==> Before(q, cell.point)
    ensures Ordered(UpdateRuns(runs, cell)) && StartsBy(UpdateRuns(runs, cell), cell.point)
  {
    var rs := UpdateRuns(runs, cell);
    var n := |runs|;
    if n > 0 && Continues(runs[n - 1], cell) {
      forall i | 0 <= i < n ensures rs[i].start == runs[i].start {
        if i < n - 1 {
          assert rs[i] == rs[..n - 1][i] == runs[..n - 1][i] == runs[i];
        }
      }
    } else {
      forall i | 0 <= i < n ensures rs[i] == runs[i] {
        assert rs[i] == rs[..n][i];
      }
    }
  }

  lemma UpdateOrdered(lines: Lines, q: Point, cell: Cell)
    requires forall k :: Ordered(RunsOf(lines, k)) && StartsBy(RunsOf(lines, k), q)
    requires lines == map[] || Before(q, cell.point)
    ensures forall k :: Ordered(RunsOf(Update(lines, cell), k)) && StartsBy(RunsOf(Update(lines, cell), k), cell.point)
  {
    forall k ensures Ordered(RunsOf(Update(lines, cell), k)) && StartsBy(RunsOf(Update(lines, cell), k), cell.point) {
      if k in cell.flags {
        UpdateRunsOrdered(RunsOf(lines, k), q, cell);
      }
    }
  }

  lemma RowMajorPrefix(cells: seq<Cell>, n: nat)
    requires RowMajor(cells) && n <= |cells|
    ensures RowMajor(cells[..n])
  {
    forall i | 0 <= i < n - 1 ensures Before(cells[..n][i].point, cells[..n][i + 1].point) {
      assert cells[..n][i] == cells[i] && cells[..n][i + 1] == cells[i + 1];
    }
  }

  /** On a row-major stream each kind's runs come out left to right, top to
      bottom, none starting after the last cell seen. */
  lemma {:induction false} AggregateOrdered(cells: seq<Cell>)
    requires RowMajor(cells)
    ensures forall k :: Ordered(RunsOf(Aggregate(cells), k))
    ensures |cells| > 0 ==> forall k :: StartsBy(RunsOf(Aggregate(cells), k), cells[|cells| - 1].point)
  {
    var n := |cells|;
    if n > 0 {
      var init := cells[..n - 1];
      var q := if n == 1 then cells[0].point else cells[n - 2].point;
      if n > 1 {
        RowMajorPrefix(cells, n - 1);
        AggregateOrdered(init);
        assert init[n - 2] == cells[n - 2];
      } else {
        assert init == [];
      }
      UpdateOrdered(Aggregate(init), q, cells[n - 1]);
    }
  }

  /** The run list of one kind, computed from the cells alone. */
  function KindRuns(cells: seq<Cell>, kind: Kind): seq<Run> {
    if |cells| == 0 then []
    else if kind in cells[|cells| - 1].flags then UpdateRuns(KindRuns(cells[..|cells| - 1], kind), cells[|cells| - 1])
    else KindRuns(cells[..|cells| - 1], kind)
  }

  /** Over a whole frame the kinds never interact: a kind's runs depend only
      on which cells carry that kind. */
  lemma {:induction false} AggregateKindRuns(cells: seq<Cell>, kind: Kind)
    ensures RunsOf(Aggregate(cells), kind) == KindRuns(cells, kind)
  {
    if |cells| > 0 {
      AggregateKindRuns(cells[..|cells| - 1], kind);
    }
  }

  lemma {:induction false} KindRunsAdjacent(cells: seq<Cell>, kind: Kind, line: nat, col: nat, color: Rgb)
    requires |cells| > 0
    requires forall i :: 0 <= i < |cells| ==>
               cells[i].point == Point(line, col + i) && cells[i].fg == color && kind in cells[i].flags && !cells[i].wide
    ensures KindRuns(cells, kind) == [Run(Point(line, col), Point(line, col + |cells| - 1), color)]
  {
    var n := |cells|;
    var init := cells[..n - 1];
    if n > 1 {
      assert forall i :: 0 <= i < |init| ==> init[i] == cells[i];
      KindRunsAdjacent(init, kind, line, col, color);
      var last := Run(Point(line, col), Point(line, col + n - 2), color);
      assert Continues(last, cells[n - 1]);
    } else {
      assert init == [];
    }
  }

  /** A stretch of same-line, same-colour, column-adjacent narrow cells of
      one kind aggregates into exactly one run spanning the stretch. */
  lemma AdjacentCellsOneRun(cells: seq<Cell>, kind: Kind, line: nat, col: nat, color: Rgb)
    requires |cells| > 0
    requires forall i :: 0 <= i < |cells| ==>
               cells[i].point == Point(line, col + i) && cells[i].fg == color && kind in cells[i].flags && !cells[i].wide
    ensures RunsOf(Aggregate(cells), kind) == [Run(Point(line, col), Point(line, col + |cells| - 1), color)]
  {
    AggregateKindRuns(cells, kind);
    KindRunsAdjacent(cells, kind, line, col, color);
  }

  lemma {:induction false} KindRunsColourChanges(cells: seq<Cell>, kind: Kind)
    requires forall i :: 0 <= i < |cells| ==> kind in cells[i].flags
    requires forall i :: 0 <= i < |cells| - 1 ==> cells[i].fg != cells[i + 1].fg
    ensures |KindRuns(cells, kind)| == |cells|
    ensures |cells| > 0 ==> KindRuns(cells, kind)[|cells| - 1].color == cells[|cells| - 1].fg
  {
    var n := |cells|;
    if n > 0 {
      var init := cells[..n - 1];
      assert forall i :: 0 <= i < |init| ==> init[i] == cells[i];
      KindRunsColourChanges(init, kind);
    }
  }

  /** Cells of one kind whose colour changes from each cell to the next
      never merge: every cell starts a run of its own. */
  lemma ColourChangesSplitRuns(cells: seq<Cell>, kind: Kind)
    requires forall i :: 0 <= i < |cells| ==> kind in cells[i].flags
    requires forall i :: 0 <= i < |cells| - 1 ==> cells[i].fg != cells[i + 1].fg
    ensures |RunsOf(Aggregate(cells), kind)| == |cells|
    ensures |cells| > 0 ==> RunsOf(Aggregate(cells), kind)[|cells| - 1].color == cells[|cells| - 1].fg
  {
    AggregateKindRuns(cells, kind);
    KindRunsColourChanges(cells, kind);
  }
}
