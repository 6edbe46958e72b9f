# wave_simulation — a Dafny model of its core

The model covers the computational core of the wave_simulation program:

- **The wave equation step** (`src/wave_equation/mod.rs`). One explicit Verlet step of the 2D wave equation: every cell of `next` becomes `2 * current - previous + (dt² / dh²) * (left + right + up + down - 4 * current)`. Neighbour indices are clamped at the edges of the grid, so an edge cell stands in for its own missing neighbour. Module `WaveEquation` in `wave_equation.dfy`.
- **The stand-alone driver** (`src/main.rs`). It allocates three zeroed buffers of 100 rows of 200 cells and loops 1000 times over a step followed by a rotation of the roles previous / current / next, done by reassigning references. As written, the step it calls indexes these non-square buffers out of bounds during the first iteration (see Findings); the model runs the loop with the corrected step. It also holds the small `array_test`. Module `Driver` in `driver.dfy`.
- **The triangulated grid** (`src/geometry/grid.rs`). `Grid::new` lays out an M x N vertex lattice at (x, y, 0) and colours every vertex grey. It emits two triangles (A, B, C and C, D, A) per quad into a flat `u32` index buffer. The slice views expose the vertex and colour arrays in row-major order. Module `Geometry` in `grid.dfy`.
- **The GUI layout tree** (`src/gui/*.rs`). Buttons and labels can be nested in vertical layouts, and each top-level element is anchored by an alignment. `Gui::resize` walks the tree and reports one `ChangePositionEvent` per button or label. Module `Gui` in `gui.dfy`.

How the source is modelled:

- **Data.** Height fields are `seq<seq<real>>` values, and the step works in place on `array2<real>` buffers. The grid is a class whose buffers are arrays. The GUI tree is a family of datatypes, generic in the button and label id types.
- **The event vector.** The `resize` methods append to a `&mut Vec`. The model threads it through them as an input sequence and a returned sequence.
- **Damping and forces.** The step in `src/wave_equation/mod.rs` has no damping term and no force term, and neither does the model.
- **Products.** Products of grid indices are written with `Geometry.Mul`, repeated addition, so that the solver works with linear arithmetic. `Geometry.MulIsProduct` proves that `Mul` is multiplication.

## Model

| member | source | states |
|---|---|---|
| WaveEquation.ClampedNeighbours | src/wave_equation/mod.rs:30-33 | the clamped neighbour indices stay in `[0, len)`; away from an edge they are `i - 1` and `i + 1`; at an edge the missing neighbour is the cell itself |
| WaveEquation.StencilInBounds | src/wave_equation/mod.rs:28-34 | every cell the update of (y, x) reads is inside the grid, on the same row or column and at distance at most one |
| WaveEquation.NextField | src/wave_equation/mod.rs:26-34 | the stepped field has the shape of `current`, and each of its cells is the update of that cell |
| WaveEquation.NextFieldAt | src/wave_equation/mod.rs:28-34 | cell (y, x) of the stepped field is the Verlet update of the cell, its previous value and its four clamped neighbours, all of which lie in the grid |
| WaveEquation.ConstantFieldIsFixed | src/wave_equation/mod.rs:28-34 | if `previous` and `current` both hold `c` everywhere, the step writes `c` everywhere (the clamped Laplacian vanishes) |
| WaveEquation.ZeroFieldIsFixed | src/wave_equation/mod.rs:28-34 | the all-zero field is a fixed point of the step |
| WaveEquation.Locality | src/wave_equation/mod.rs:28-34 | the new value of (y, x) depends only on `previous` at (y, x) and on `current` over the five-cell clamped stencil |
| WaveEquation.InBoundsAsWrittenIff | src/wave_equation/mod.rs:19-34 | with buffers typed `[[f32;M];N]` and indexed `[y < M][x < N]`, every access is in bounds exactly when M == N (or the grid is empty) |
| WaveEquation.Step | src/wave_equation/mod.rs:19-37 | `next` ends up equal to the stepped field of `previous` and `current`; only `next` is written |
| Driver.Rotate | src/main.rs:38-41 | one reassignment maps (previous, current, next) to (current, next, old previous); it keeps the three buffers, and the roles stay pairwise distinct exactly when they were |
| Driver.RolesAlwaysDistinct | src/main.rs:30-41 | after any number of iterations the three roles denote three different buffers, so the step never writes a buffer it reads |
| Driver.RolesAfterMod3 | src/main.rs:34-42 | the role assignment depends only on the iteration count modulo 3 |
| Driver.RolesPeriodThree | src/main.rs:34-42 | three iterations restore every role |
| Driver.FinalRoles | src/main.rs:34-42 | after the 1000 iterations `previous` is grid 2, `current` grid 3 and `next` grid 1 |
| Driver.Iterate | src/main.rs:36-41 | one iteration keeps the buffers' shape; the new `previous` is the old `current` and the new scratch `next` is the old `previous` |
| Driver.Run | src/main.rs:34-42 | any number of iterations keeps the buffers' shape |
| Driver.ZeroStaysZero | src/main.rs:21-36 | from three zeroed buffers, every buffer is still zero after any number of iterations |
| Driver.NewBuffer | src/main.rs:21-23 | a fresh 100 x 200 buffer holds zero in every cell |
| Driver.RunMain | src/main.rs:16-42 | with the corrected step: the three buffers are distinct and the loop runs 1000 steps. At the end the role references are (grid 2, grid 3, grid 1), their contents are the 1000-fold iteration from zero, and all three buffers are zero |
| Driver.MainBuffersOutOfBounds | src/main.rs:18-36 | with the driver's 100 x 200 buffers the step as written reads row 100 at y = 99, so the in-bounds condition fails |
| Driver.ArrayTest | src/main.rs:6-9 | element 10 of the target takes element 10 of the source; every other element is unchanged |
| Geometry.AsU32 | src/geometry/grid.rs:44-51 | `as u32` yields a value below 2^32 and is the identity on values that already fit |
| Geometry.MulIsProduct | src/geometry/grid.rs:36-41 | the product by repeated addition equals multiplication |
| Geometry.QuadCorners | src/geometry/grid.rs:43-51 | the two triangles of quad (y, x) are six vertex ids, A, B, C, C, D, A |
| Geometry.Quad | src/geometry/grid.rs:44-51 | the six indices the grid writes for a quad: the corner ids, each cut to 32 bits |
| Geometry.QuadPositionOf | src/geometry/grid.rs:39-41 | quad (y, x) is quad number `y * (N - 1) + x` |
| Geometry.OffsetOfQuadPosition | src/geometry/grid.rs:39-41 | every quad number is `y * (N - 1) + x` for one column `x < N - 1` |
| Geometry.QuadPositionBound | src/geometry/grid.rs:39-41 | the quads numbered below `(M - 1) * (N - 1)` lie in rows below `M - 1` and columns below `N - 1` |
| Geometry.TriangleIndices | src/geometry/grid.rs:36-53 | the index buffer has `(M - 1) * (N - 1) * 6` entries; entry `s` is corner `s % 6` of quad number `s / 6` |
| Geometry.QuadAt | src/geometry/grid.rs:41-51 | the six slots from `(y * (N - 1) + x) * 6` hold the six indices of quad (y, x) in order |
| Geometry.SlotsInjective | src/geometry/grid.rs:39-41 | distinct (quad, corner) pairs get distinct slots of the index buffer |
| Geometry.SlotsCover | src/geometry/grid.rs:36-41 | every slot of the index buffer is the slot of one corner of one quad of the grid |
| Geometry.QuadCornersInGrid | src/geometry/grid.rs:44-51 | D is one row below A, and C, the largest corner, is a vertex of the grid |
| Geometry.QuadUncut | src/geometry/grid.rs:44-51 | all corners are at most C, and when C fits in a `u32` the cut to 32 bits changes no corner |
| Geometry.EntryInGrid | src/geometry/grid.rs:44-51 | every entry of the index buffer is below `M * N`, for every grid with `M, N >= 1`; when some id exceeds a `u32` the cut entry is below `2^32 < M * N` |
| Geometry.IndicesAreVertexIds | src/geometry/grid.rs:39-53 | when `M * N <= 2^32`, every index is a vertex id and the six slots of quad (y, x) hold exactly its corners A, B, C, C, D, A |
| Geometry.WriteQuad | src/geometry/grid.rs:43-51 | the six writes of one quad put its indices at `i .. i + 6` and leave every other entry alone |
| Geometry.Triangulate | src/geometry/grid.rs:36-53 | the triangulation loop allocates a buffer of `(M - 1) * (N - 1) * 6` entries and fills it with the reference index buffer |
| Geometry.FlattenLength | src/geometry/grid.rs:62-72 | the row-major layout of rows of `n` cells has `rows * n` elements |
| Geometry.FlattenAt | src/geometry/grid.rs:62-72 | cell x of row y is element `y * n + x` of the row-major layout |
| Geometry.RowMajor | src/geometry/grid.rs:63 | the row-major view of an `M x N` array has `M * N` elements, and element `y * N + x` is cell (y, x) |
| Geometry.RowMajorAt | src/geometry/grid.rs:63 | the rows of an array, concatenated, place cell (y, x) at `y * N + x` |
| Geometry.Grid.constructor | src/geometry/grid.rs:16-60 | vertex (y, x) is at position (x, y, 0), every colour is (0.5, 0.5, 0.5), and the index buffer is the reference triangulation |
| Geometry.Grid.VerticesSlice | src/geometry/grid.rs:62-66 | the `MN` vertices in row-major order: vertex (y, x) at `y * N + x` |
| Geometry.Grid.ColorsSlice | src/geometry/grid.rs:68-72 | the `MN` colours in row-major order: colour (y, x) at `y * N + x` |
| Geometry.Grid.IndicesSlice | src/geometry/grid.rs:74-76 | the whole index buffer, entry by entry |
| Gui.NewButton | src/gui/gui.rs:24-35 | the event carries a button tag with the given id, at the given x and y |
| Gui.NewLabel | src/gui/gui.rs:37-48 | the event carries a label tag with the given id, at the given x and y |
| Gui.AbsolutePosition | src/gui/aligned_element.rs:36-43 | TopLeft and TopRight add the x offset to the width, the bottom alignments subtract it; TopLeft and BottomLeft add the y offset to the height, the right alignments subtract it |
| Gui.RelativeOfAbsolute | src/gui/aligned_element.rs:36-43 | the offset is recovered from the absolute position, so different offsets give different positions |
| Gui.ElementEventsAreLeaves | src/gui/vertical_layout.rs:23-42 | an element placed at (x, y) reports exactly its buttons and labels, in tree order, each at (x, y) with no offset between children; an empty layout reports nothing |
| Gui.ChildrenEventsAreLeaves | src/gui/vertical_layout.rs:25-41 | the children of a layout report their leaves in child order, each at (x, y) |
| Gui.GuiEventsCount | src/gui/gui.rs:78-89 | a resize reports as many events as there are buttons and labels in the tree |
| Gui.LayoutResize | src/gui/vertical_layout.rs:23-42 | `VerticalLayout::resize` keeps the existing events and appends the events of every child in order, recursing into nested layouts |
| Gui.AlignedResize | src/gui/aligned_element.rs:45-64 | `AlignedElement::resize` keeps the existing events and appends the element's events at its absolute position: one for a button or a label, the layout's otherwise |
| Gui.Gui.constructor | src/gui/gui.rs:70-76 | `Gui::new` stores the width, the height and the elements as given |
| Gui.Gui.Resize | src/gui/gui.rs:78-89 | the window size becomes (width, height), the elements are unchanged, and the result is the events of every element, in element order, starting from no events |
| Gui.Gui.MouseEventResult | src/gui/gui.rs:91-94 | `mouse_event` reports no click handled and no button pressed |
| Gui.CreateAndUse | src/gui/tests.rs:17-59 | the test's five-leaf layout, anchored bottom-right at (20, 20) and resized to 400 x 400, yields five events: the five leaves in order, all at (380, 380) |

## Left out

- WaveEquation.Step: cell values are `real`, not `f32`; rounding, overflow to infinity and stability of the explicit scheme are not modelled.
- WaveEquation.Step: requires `deltaH != 0`, because real division by zero is undefined; `f32` would yield infinity or NaN.
- WaveEquation.Step: is the step with its loops bounded by the buffers' own dimensions. The as-written typing is captured by `WaveEquation.InBoundsAsWritten` (see Findings).
- Damping, sub-stepping and force injection are called from `src/lib.rs`, but their implementation is not part of this model.
- The event loop, rendering, input handling, camera, mouse picking and every GPU buffer, texture and pipeline (`src/lib.rs`, `src/wave_simulation.rs`, `src/wave_sim_gui/mod.rs`, `src/wgpu_renderer/*`, the shader modules, `src/mouse_selector.rs`) are I/O and graphics glue, outside the core.
- Driver.RunMain: runs the corrected step. The driver as written panics in its first iteration: at y = 99 the step reads row 100 of a buffer of 100 rows.
- Driver.ArrayTest: requires both slices to have more than 10 elements; on a shorter slice the source panics, which is not modelled.
- `main`'s final `println!`, the empty `grid_test` and the commented-out code in `src/main.rs` are not modelled.
- The `unsafe` zero-initialisation of boxed arrays is modelled as a fresh array filled with zeros.
- The `transmute` in the slice views is modelled as an explicit row-major flattening.
- Geometry.Grid.VerticesSlice: requires `MN == M * N`. The `transmute` converts one reference into another, so it compiles for every `MN`; with `MN > M * N` the view reads past the boxed array (undefined behaviour) and with `MN < M * N` it is a prefix of the vertices. The program instantiates the grid with `MN = M * N` (src/lib.rs:41, used at src/lib.rs:180).
- Geometry.Grid.ColorsSlice: requires `MN == M * N`, for the same reason.
- Geometry.Grid.constructor: requires `M >= 1` and `N >= 1`; with a zero dimension `(M - 1)` underflows a `usize`.
- Geometry.Triangulate: requires `M >= 1` and `N >= 1`, for the same reason.
- Geometry.Triangulate: `usize` arithmetic is unbounded in the model, so an overflow of `y * N` in `usize` is not modelled. The `as u32` cut is modelled.
- Geometry.IndicesAreVertexIds: holds under `M * N <= 2^32`. Beyond that the `as u32` cut wraps ids around, as `Geometry.Quad` models.
- The `Vertex` and `Color` types of the colour shader are modelled by their single field.
- Gui.AbsolutePosition: requires every coordinate to fit in a `u32`. An addition that overflows or a subtraction below zero panics in a debug build and wraps in a release build; neither is modelled.
- Gui.AlignedResize: requires the same of its element.
- Gui.Gui.Resize: requires the same of every top-level element (`AllFit`).
- The width and height stored in `Button` and `Label` are kept in the datatypes, but no operation reads them.
- Gui.Gui.MouseEventResult: the mouse event is accepted and ignored, as in the source.

## Findings

| source | as written | input that shows it | evidently intended | confidence | as-written member | corrected member |
|---|---|---|---|---|---|---|
| src/wave_equation/mod.rs:19-34 | the buffers are typed `[[f32;M];N]` (N rows of M cells), but the loops run `y` over `0..M` as the row index and `x` over `0..N` as the cell index | the driver's buffers, M = 200 and N = 100 (src/main.rs:18-23): at y = 99 the step reads `current[100]` of a 100-row buffer and panics | the row loop bounded by the number of rows and the cell loop by the row length, so every access stays in the buffers for any shape | high; not executed | WaveEquation.InBoundsAsWrittenIff, Driver.MainBuffersOutOfBounds | WaveEquation.Step, Driver.RunMain |
