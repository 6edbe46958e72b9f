/**
 * One explicit (Verlet) step of the 2D wave equation on a fixed grid,
 * with neighbour indices clamped to the grid at its edges.
 *
 * A field is modelled by value as a sequence of rows; the step itself
 * works in place on `array2<real>` buffers, as the source writes `next`
 * cell by cell while only reading `previous` and `current`.
 */
module WaveEquation {

  /** A height field: a sequence of rows of cell values. */
  type Field = seq<seq<real>>

  /** `f` has `rows` rows of `cols` cells each. */
  predicate IsField(f: Field, rows: nat, cols: nat)
  {
    |f| == rows && forall y :: 0 <= y < rows ==> |f[y]| == cols
  }

  /** The number of cells per row of a field (zero for a field without rows). */
  function Width(f: Field): nat
  {
    if |f| == 0 then 0 else |f[0]|
  }

  /** The field of the given shape whose every cell holds `c`. */
  function Constant(rows: nat, cols: nat, c: real): (f: Field)
    ensures IsField(f, rows, cols)
    ensures forall y, x :: 0 <= y < rows && 0 <= x < cols ==> f[y][x] == c
  {
    seq(rows, _ => seq(cols, _ => c))
  }

  /** The all-zero field of the given shape. */
  function Zero(rows: nat, cols: nat): Field
  {
    Constant(rows, cols, 0.0)
  }

  /** The index before `i`, saturating at 0 (`i.saturating_add_signed(-1)`). */
  function Lower(i: nat): nat
  {
    if i == 0 then 0 else i - 1
  }

  /** The index after `i`, capped at `len - 1` (`(i + 1).min(len - 1)`). */
  function Upper(i: nat, len: nat): nat
    requires i < len
  {
    if i + 1 < len - 1 then i + 1 else len - 1
  }

  /**
   * The clamped neighbour indices stay inside `[0, len)`, move by one step
   * away from the edge, and fall back to the cell itself at an edge.
   */
  lemma ClampedNeighbours(i: nat, len: nat)
    requires i < len
    ensures Lower(i) < len && Upper(i, len) < len
    ensures i > 0 ==> Lower(i) == i - 1
    ensures i == 0 ==> Lower(i) == i
    ensures i < len - 1 ==> Upper(i, len) == i + 1
    ensures i == len - 1 ==> Upper(i, len) == i
  {
  }

  /** `(delta_t * delta_t) / (delta_h * delta_h)`, the stencil weight. */
  function Coefficient(deltaT: real, deltaH: real): real
    requires deltaH != 0.0
  {
    (deltaT * deltaT) / (deltaH * deltaH)
  }

  /**
   * The cells of `current` that the update of cell (y, x) reads: the cell
   * itself and its four clamped neighbours, as (row, column) pairs.
   */
  function StencilCells(y: nat, x: nat, rows: nat, cols: nat): (cells: set<(nat, nat)>)
    requires y < rows && x < cols
  {
    {(y, x), (y, Lower(x)), (y, Upper(x, cols)), (Lower(y), x), (Upper(y, rows), x)}
  }

  /**
   * Every cell of the stencil of an in-range cell is inside the grid and at
   * Manhattan distance at most one from it.
   */
  lemma {:induction false} StencilInBounds(y: nat, x: nat, rows: nat, cols: nat)
    requires y < rows && x < cols
    ensures forall c :: c in StencilCells(y, x, rows, cols) ==>
      c.0 < rows && c.1 < cols &&
      (c.0 == y || c.1 == x) && y <= c.0 + 1 && c.0 <= y + 1 && x <= c.1 + 1 && c.1 <= x + 1
  {
    ClampedNeighbours(y, rows);
    ClampedNeighbours(x, cols);
  }

  /**
   * The explicit update of one cell: twice its current value minus its
   * previous value, plus `k` times the discrete Laplacian of its
   * neighbourhood.
   */
  function Verlet(before: real, here: real, left: real, right: real, up: real, down: real, k: real): real
  {
    2.0 * here - before + k * (left + right + up + down - 4.0 * here)
  }

  /** The new value of cell (y, x) computed from `previous` and `current`. */
  function CellUpdate(previous: Field, current: Field, k: real, y: nat, x: nat): real
    requires SameShape(previous, current)
    requires y < |current| && x < Width(current)
  {
    var rows, cols := |current|, Width(current);
    Verlet(previous[y][x], current[y][x],
           current[y][Lower(x)], current[y][Upper(x, cols)],
           current[Lower(y)][x], current[Upper(y, rows)][x], k)
  }

  /** Both fields have the shape of `current`. */
  predicate SameShape(previous: Field, current: Field)
  {
    IsField(previous, |current|, Width(current)) && IsField(current, |current|, Width(current))
  }

  /** The field that one step writes into `next`, as a value. */
  function NextField(previous: Field, current: Field, k: real): (next: Field)
    requires SameShape(previous, current)
    ensures IsField(next, |current|, Width(current))
    ensures forall y, x :: 0 <= y < |current| && 0 <= x < Width(current) ==>
      next[y][x] == CellUpdate(previous, current, k, y, x)
  {
    seq(|current|, y requires 0 <= y < |current| =>
      seq(Width(current), x requires 0 <= x < Width(current) => CellUpdate(previous, current, k, y, x)))
  }

  /** Two fields of one shape that agree on every cell are equal. */
  lemma {:induction false} FieldsEqual(f: Field, g: Field, rows: nat, cols: nat)
    requires IsField(f, rows, cols) && IsField(g, rows, cols)
    requires forall y, x :: 0 <= y < rows && 0 <= x < cols ==> f[y][x] == g[y][x]
    ensures f == g
  {
    forall y | 0 <= y < rows
      ensures f[y] == g[y]
    {
      assert forall x :: 0 <= x < cols ==> f[y][x] == g[y][x];
    }
  }

  /**
   * A constant field is a fixed point: with `previous` and `current` both
   * equal to `c` everywhere, every clamped Laplacian vanishes and the step
   * writes `c` into every cell of `next`.
   */
  lemma {:induction false} ConstantFieldIsFixed(rows: nat, cols: nat, c: real, k: real)
    ensures NextField(Constant(rows, cols, c), Constant(rows, cols, c), k) == Constant(rows, cols, c)
  {
    var f := Constant(rows, cols, c);
    var g := NextField(f, f, k);
    forall y, x | 0 <= y < rows && 0 <= x < cols
      ensures g[y][x] == c
    {
      ClampedNeighbours(y, rows);
      ClampedNeighbours(x, cols);
      assert g[y][x] == 2.0 * c - c + k * (c + c + c + c - 4.0 * c);
    }
    FieldsEqual(g, f, rows, cols);
  }

  /** The all-zero field is a fixed point of the step. */
  lemma ZeroFieldIsFixed(rows: nat, cols: nat, k: real)
    ensures NextField(Zero(rows, cols), Zero(rows, cols), k) == Zero(rows, cols)
  {
    ConstantFieldIsFixed(rows, cols, 0.0, k);
  }

  /**
   * Locality: the new value of cell (y, x) depends only on `previous` at
   * (y, x) and on `current` over the stencil of (y, x).
   */
  lemma {:induction false} Locality(p1: Field, c1: Field, p2: Field, c2: Field, k: real, y: nat, x: nat)
    requires SameShape(p1, c1) && SameShape(p2, c2)
    requires |c1| == |c2| && Width(c1) == Width(c2)
    requires y < |c1| && x < Width(c1)
    requires p1[y][x] == p2[y][x]
    requires forall c :: c in StencilCells(y, x, |c1|, Width(c1)) ==> c1[c.0][c.1] == c2[c.0][c.1]
    ensures NextField(p1, c1, k)[y][x] == NextField(p2, c2, k)[y][x]
  {
    var rows, cols := |c1|, Width(c1);
    StencilInBounds(y, x, rows, cols);
    assert (y, x) in StencilCells(y, x, rows, cols);
    assert (y, Lower(x)) in StencilCells(y, x, rows, cols);
    assert (y, Upper(x, cols)) in StencilCells(y, x, rows, cols);
    assert (Lower(y), x) in StencilCells(y, x, rows, cols);
    assert (Upper(y, rows), x) in StencilCells(y, x, rows, cols);
  }

  /**
   * The source types its buffers `[[f32; M]; N]` (N rows of M cells) but
   * runs `y` over `0..M` as the row index and `x` over `0..N` as the cell
   * index. This holds when every row index it touches is below N and every
   * cell index below M.
   */
  ghost predicate InBoundsAsWritten(m: nat, n: nat)
  {
    forall y: nat, x: nat, c :: y < m && x < n && c in StencilCells(y, x, m, n) ==> c.0 < n && c.1 < m
  }

  /**
   * As written, the step stays inside its buffers exactly when the grid is
   * square or one of its dimensions is zero.
   */
  lemma {:induction false} InBoundsAsWrittenIff(m: nat, n: nat)
    ensures InBoundsAsWritten(m, n) <==> (m == 0 || n == 0 || m == n)
  {
    if m == 0 || n == 0 || m == n {
      forall y: nat, x: nat | y < m && x < n
        ensures forall c :: c in StencilCells(y, x, m, n) ==> c.0 < n && c.1 < m
      {
        StencilInBounds(y, x, m, n);
      }
    } else if m > n {
      // the row index n is written into a buffer of n rows
      assert (n, 0) in StencilCells(n, 0, m, n);
    } else {
      // the cell index m is written into rows of m cells
      assert (0, m) in StencilCells(0, m, m, n);
    }
  }

  /** The value of a buffer: its rows as sequences. */
  function Snapshot(a: array2<real>): (f: Field)
    reads a
    ensures IsField(f, a.Length0, a.Length1)
    ensures forall y, x :: 0 <= y < a.Length0 && 0 <= x < a.Length1 ==> f[y][x] == a[y, x]
  {
    seq(a.Length0, y requires 0 <= y < a.Length0 reads a =>
      seq(a.Length1, x requires 0 <= x < a.Length1 reads a => a[y, x]))
  }

  /** Cell (y, x) of the stepped field, spelled out with the clamped neighbour indices. */
  lemma NextFieldAt(previous: Field, current: Field, k: real, y: nat, x: nat)
    requires SameShape(previous, current)
    requires y < |current| && x < Width(current)
    ensures Lower(x) < Width(current) && Upper(x, Width(current)) < Width(current)
    ensures Lower(y) < |current| && Upper(y, |current|) < |current|
    ensures NextField(previous, current, k)[y][x] ==
      Verlet(previous[y][x], current[y][x],
             current[y][Lower(x)], current[y][Upper(x, Width(current))],
             current[Lower(y)][x], current[Upper(y, |current|)][x], k)
  {
    ClampedNeighbours(y, |current|);
    ClampedNeighbours(x, Width(current));
  }

  /**
   * `wave_equation_step`: writes every cell of `next` from `previous` and
   * `current`, which it only reads. Buffers are `rows` x `cols` with
   * `Length0` the row count, so the row loop is bounded by `Length0`.
   */
  method Step(previous: array2<real>, current: array2<real>, next: array2<real>, deltaT: real, deltaH: real)
    requires deltaH != 0.0
    requires previous.Length0 == current.Length0 == next.Length0
    requires previous.Length1 == current.Length1 == next.Length1
    requires next != previous && next != current
    modifies next
    ensures Snapshot(next) == NextField(Snapshot(previous), Snapshot(current), Coefficient(deltaT, deltaH))
  {
    var rows, cols := next.Length0, next.Length1;
    var k := Coefficient(deltaT, deltaH);
    ghost var P, C := Snapshot(previous), Snapshot(current);
    ghost var N := NextField(P, C, k);
    assert rows > 0 ==> Width(C) == cols;
    for y := 0 to rows
      invariant forall i, j :: 0 <= i < y && 0 <= j < cols ==> next[i, j] == N[i][j]
    {
      for x := 0 to cols
        invariant forall i, j :: 0 <= i <= y && 0 <= j < cols && (i < y || j < x) ==> next[i, j] == N[i][j]
      {
        NextFieldAt(P, C, k, y, x);
        var here, before := current[y, x], previous[y, x];
        var left, right := current[y, Lower(x)], current[y, Upper(x, cols)];
        var up, down := current[Lower(y), x], current[Upper(y, rows), x];
        assert here == C[y][x] && before == P[y][x];
        assert left == C[y][Lower(x)] && right == C[y][Upper(x, cols)];
        assert up == C[Lower(y)][x] && down == C[Upper(y, rows)][x];
        next[y, x] := Verlet(before, here, left, right, up, down, k);
      }
    }
    FieldsEqual(Snapshot(next), N, rows, cols);
  }
}
