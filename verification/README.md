# Text-decoration geometry of Alacritty's rectangle renderer

This project models the decoration pipeline of `alacritty/src/renderer/rects.rs`. The pipeline draws underlines, double underlines, dotted and dashed underlines and strikeouts as GPU rectangles. It has three stages:

1. **Line aggregation** (`RenderLines::update`, `update_flag`). A row-major stream of decorated cells becomes, for each of the five decoration kinds, a list of horizontal runs (`RenderLine`: start point, end point, colour). A cell extends the last run of its kind when the colour and line match and the cell sits right after the run's end. Otherwise the cell starts a new run. A wide glyph also covers its spacer column.
2. **Geometry** (`RenderLine::rects`, `create_rect`, `RenderLines::rects`). Each run becomes one rectangle, or two for a double underline. Each rectangle has a kind-specific vertical position and thickness, and a solid or dashed style. The thickness is at least one pixel, and the rectangle is clamped so it never reaches into the next row.
3. **Quad emission** (`RectRenderer::add_rect` and the vertex loop of `draw`). Each rectangle becomes six vertices in normalised device coordinates (NDC), in a fixed order. All six carry the rectangle's colour and its dash period. A solid rectangle carries the sentinel period 4.0.

Modules:

- `Grid` (`grid.dfy`): bytes, colours, points, the closed `Kind` enumeration, and the cell record.
- `RealMath` (`real_math.dfy`): `Ceil`, `Round` (halves away from zero, as `f32::round` does) and `Max` over exact reals.
- `RenderLines` (`render_lines.dfy`): the aggregator and its invariants.
- `Geometry` (`geometry.dfy`): rectangle placement.
- `RectRenderer` (`rect_renderer.dfy`): vertices.
- `Frame` (`frame.dfy`): the three stages composed.
- `Examples` (`examples.dfy`): small concrete cases.

Notes on how the source is represented:

- The `HashMap<Flags, Vec<RenderLine>>` is a `map<Kind, seq<Run>>`. A kind with no entry has no runs.
- The hash map's iteration order is an explicit parameter `order`, which lists the present kinds once each. The multiset of rectangles is proved not to depend on it.
- The `unimplemented!` branch of `RenderLine::rects` cannot be reached, because `Kind` has exactly five constructors.
- The code clamps the dash periods after rounding: `max(round(t), 1) * 2`, and with 2 for the dashed period. `Geometry.PeriodFloorBeforeRounding` proves this equals rounding after clamping (`round(max(t, 1)) * 2`).

## Model

| member | source | states |
|---|---|---|
| RealMath.Ceil | alacritty/src/renderer/rects.rs:135 | the ceiling is the least integer at or above its argument |
| RealMath.Round | alacritty/src/renderer/rects.rs:95 | rounding lands within half a unit of its argument, with halves going away from zero |
| RealMath.MaxRoundCommute | alacritty/src/renderer/rects.rs:103 | taking the max with an integer floor before or after rounding gives the same value |
| RenderLines.EndOf | alacritty/src/renderer/rects.rs:191-195 | a cell's end point is on the cell's line, one column further only for a wide glyph |
| RenderLines.UpdateRuns | alacritty/src/renderer/rects.rs:197-216 | merge case: same length, earlier runs untouched, last run keeps its start and colour and gets the cell's end; otherwise exactly one run (cell point, end, fg) is appended after the unchanged old runs |
| RenderLines.UpdateFlag | alacritty/src/renderer/rects.rs:186-217 | a cell without the flag changes nothing; with it, only that kind's list takes the update step and no other kind's entry changes |
| RenderLines.Update | alacritty/src/renderer/rects.rs:177-183 | the five sequential flag updates act on each kind independently: a kind's list takes one step iff the cell carries it |
| RenderLines.AggregateKindRuns | alacritty/src/renderer/rects.rs:177-189 | over a whole frame a kind's runs depend only on the cells carrying that kind, not on the other kinds |
| RenderLines.AggregateSnoc | alacritty/src/renderer/rects.rs:177-183 | feeding one more cell into a frame changes each kind's list by exactly one update step, or not at all |
| RenderLines.UpdateRunsValid | alacritty/src/renderer/rects.rs:191-216 | an update step keeps every run on one line with start column at most end column, and leaves no two neighbouring runs mergeable |
| RenderLines.AggregateValid | alacritty/src/renderer/rects.rs:66 | every run list of a frame meets the single-line shape `RenderLine::rects` asserts, and no neighbours could have been merged |
| RenderLines.UpdateRunsCover | alacritty/src/renderer/rects.rs:198-216 | an update step adds exactly the cell's own span (with its colour) to the pixels the runs cover |
| RenderLines.AggregateCover | alacritty/src/renderer/rects.rs:175-217 | after a frame, a kind's runs cover exactly the (line, column, colour) pixels of the cells that carried the kind, wide spacers included |
| RenderLines.UpdateRunsOrdered | alacritty/src/renderer/rects.rs:209-216 | a new run always starts after every existing run when cells arrive in row-major order |
| RenderLines.UpdateOrdered | alacritty/src/renderer/rects.rs:177-183 | the ordering step holds for all five kinds at once |
| RenderLines.AggregateOrdered | alacritty/src/renderer/rects.rs:197-216 | for a row-major stream, each kind's runs have strictly increasing starts, none after the last cell |
| RenderLines.AdjacentCellsOneRun | alacritty/src/renderer/rects.rs:198-206 | a stretch of same-line, same-colour, column-adjacent narrow cells gives exactly one run spanning it |
| RenderLines.ColourChangesSplitRuns | alacritty/src/renderer/rects.rs:199-216 | when the colour changes at every cell, each cell starts its own run |
| Geometry.CreateRect | alacritty/src/renderer/rects.rs:116-150 | height is max(thickness, 1) and at least 1; x is the start column times the cell width plus padding; width is the column span times the cell width; the bar never crosses the row's bottom; unclamped, y is the ceiling of the ideal top and the bar's centre is within one pixel below the requested line; whenever that ceiling would cross the row's bottom, the bar sits on the row bottom |
| Geometry.DottedPeriod | alacritty/src/renderer/rects.rs:92-97 | the dotted period is twice a whole number of pixels, at least 2, and within half a pixel of the clamped thickness |
| Geometry.DashedPeriod | alacritty/src/renderer/rects.rs:99-105 | the dashed period is twice a whole number of pixels, at least 4, and within half a pixel of a quarter cell clamped to 2 |
| Geometry.PeriodFloorBeforeRounding | alacritty/src/renderer/rects.rs:95-103 | both period formulas equal rounding after clamping |
| Geometry.LineRects | alacritty/src/renderer/rects.rs:63-113 | a double underline gives 2 solid rectangles at 0.25 and 0.75 of the descent; underline and strikeout give 1 solid each; dotted and dashed give 1 dashed each with their periods; every rectangle has the run's colour, span and a height of at least 1 |
| Geometry.CreateRectMonotone | alacritty/src/renderer/rects.rs:135-139 | a bar placed further above the baseline never ends up lower |
| Geometry.DoubleUnderlineOrder | alacritty/src/renderer/rects.rs:71-84 | with a non-positive descent the second double-underline bar is at or below the first and has the same shape |
| Geometry.KindRects | alacritty/src/renderer/rects.rs:170 | a kind's runs give RectsPerRun(kind) rectangles per run |
| Geometry.KindRectsBlocks | alacritty/src/renderer/rects.rs:170 | the rectangles of the first m runs are a prefix of the kind's output, so each run's rectangles follow those of the runs before it, in run order |
| Geometry.Rects | alacritty/src/renderer/rects.rs:166-173 | whatever the iteration order, the output is, up to order, exactly the rectangles of all five kinds' runs with each kind visited once (kinds without an entry add none); its size is the sum over kinds of per-run count times run count |
| Geometry.RectsAllKinds | alacritty/src/renderer/rects.rs:166-173 | any admissible iteration order gives the same multiset of rectangles as visiting all five kinds in a fixed order |
| Geometry.RectsInPermutation | alacritty/src/renderer/rects.rs:167-172 | permuting the kind order permutes the output rectangles |
| Geometry.RectsOrderIndependent | alacritty/src/renderer/rects.rs:166-173 | any two admissible hash-map iteration orders give the same multiset of rectangles |
| RectRenderer.AlphaByte | alacritty/src/renderer/rects.rs:362 | the alpha byte is alpha times 255, truncated toward zero and saturated to 0..255 |
| RectRenderer.DashPeriod | alacritty/src/renderer/rects.rs:363-368 | solid gives 4.0, above the NDC span of 2; dashed gives an NDC period that scales back to the pixel period |
| RectRenderer.Quad | alacritty/src/renderer/rects.rs:355-389 | six vertices, in the order top-right, top-left, bottom-left, bottom-right, top-right, bottom-left; mapped back to pixels they are the rectangle's corners; all six share its colour, alpha byte and dash period |
| RectRenderer.AddRect | alacritty/src/renderer/rects.rs:384-389 | adding a rectangle appends exactly its six quad vertices and keeps the earlier vertices as a prefix |
| RectRenderer.QuadTriangles | alacritty/src/renderer/rects.rs:371-389 | both triangles wind the same way, each with signed double area equal to the rectangle's NDC area; they share the top-right/bottom-left diagonal and end on the same provoking vertex |
| RectRenderer.Draw | alacritty/src/renderer/rects.rs:324-331 | after clearing, the vertex list has 6 vertices per rectangle, and block i is rectangle i's quad |
| Frame.RenderFrame | alacritty/src/renderer/rects.rs:166-183 | the frame's rectangles are exactly `RenderLines::rects` of the aggregated cells (up to order, every kind's rectangles once), each at least one pixel high; the vertex batch built as in the `draw` loop (lines 324-331) has six vertices per rectangle, block i being rectangle i's quad |
| Frame.RectsHeights | alacritty/src/renderer/rects.rs:129-130 | every rectangle `RenderLines::rects` returns is at least one pixel high |
| Examples.FourCellUnderline | alacritty/src/renderer/rects.rs:124-150 | four underlined white cells on row 0 form one run from column 0 to 3; with a 10x20 cell, descent 4, position 2 and thickness 1 this gives a 40x1 solid bar clamped to y = 19 |
| Examples.FractionalThicknessClamp | alacritty/src/renderer/rects.rs:129-139 | a 1.5-pixel bar whose rounded-up top (19) passes the last top that fits (18.5) is clamped to y = 18.5, on the row's bottom edge |
| Examples.DistinctColoursFourRuns | alacritty/src/renderer/rects.rs:199-216 | four neighbouring cells of different colours form four runs |
| Examples.WideGlyphRun | alacritty/src/renderer/rects.rs:191-206 | a wide glyph's run reaches over its spacer, and the glyph after the spacer extends that run |

## Left out

- OpenGL work is left out: VAO/VBO creation in `RectRenderer::new`, the bind, `BufferData` and `DrawArrays` calls in `draw`, both `Drop` impls, `RectShaderProgram` and the shader sources. These are foreign calls with no behaviour a pure model can state. The "one upload, one draw call" property is therefore not modelled.
- `f32` arithmetic is modelled over exact reals. IEEE rounding, NaN and infinities are not modelled, and neither is NaN handling in `f32::max`.
- RectRenderer.DashPeriod, RectRenderer.Quad, RectRenderer.AddRect and RectRenderer.Draw require a non-zero window width and height. With a zero size the source divides by zero and gets infinities, which reals cannot express.
- RenderLines.EndOf does not model `usize` overflow of `end.column += 1`. It would need a wide glyph in the last representable column.
- The hash map's iteration order is a parameter, not computed. Only order-independent facts (counts, multisets, per-kind blocks) are stated about `RenderLines::rects`.
- `RenderRect::new` (the solid-style constructor) is not modelled. The core never calls it; `create_rect` uses `new_with_style`.
- Upstream production of `RenderableCell`, `Metrics` and `SizeInfo` is left out. They are plain input records, and only the fields this core reads are kept. Other cell flags play no part here.
- Vertex positions are characterised through their inverse mapping back to pixels, not as `f32` bit patterns.
