/**
 * The stand-alone driver: three zeroed buffers, and a loop of 1000 wave
 * equation steps that rotates the roles previous / current / next by
 * reassigning references, never by copying cells.
 */
module Driver {
  import opened WaveEquation

  /** Rows per buffer (`N` in the driver). */
  const Rows: nat := 100
  /** Cells per row (`M` in the driver). */
  const Cols: nat := 200
  /** Grid spacing `H`. */
  const H: real := 1.0
  /** Time step `DELTA_T`. */
  const DeltaT: real := 0.0001
  /** Number of loop iterations. */
  const Iterations: nat := 1000

  /** The three buffers the driver allocates, in allocation order. */
  datatype Buffer = Grid1 | Grid2 | Grid3

  /** Which buffer each of the three role references denotes. */
  datatype Roles = Roles(previous: Buffer, current: Buffer, next: Buffer)

  const InitialRoles: Roles := Roles(Grid1, Grid2, Grid3)

  /** The three roles denote three different buffers. */
  predicate Distinct(r: Roles)
  {
    r.previous != r.current && r.current != r.next && r.next != r.previous
  }

  /**
   * One reassignment through `tmp`: `previous` takes the buffer that was
   * `current`, `current` the freshly written `next`, and `next` the old
   * `previous`. It keeps the roles a permutation of the buffers.
   */
  function Rotate(r: Roles): (r': Roles)
    ensures Distinct(r) <==> Distinct(r')
    ensures {r'.previous, r'.current, r'.next} == {r.previous, r.current, r.next}
  {
    Roles(r.current, r.next, r.previous)
  }

  /** The roles after `i` iterations of the loop. */
  function RolesAfter(i: nat): Roles
  {
    if i == 0 then InitialRoles else Rotate(RolesAfter(i - 1))
  }

  /** After any number of iterations the roles still denote three different buffers. */
  lemma {:induction false} RolesAlwaysDistinct(i: nat)
    ensures Distinct(RolesAfter(i))
  {
    if i > 0 {
      RolesAlwaysDistinct(i - 1);
    }
  }

  /** The role assignment depends only on the iteration count modulo 3. */
  lemma {:induction false} RolesAfterMod3(i: nat)
    ensures RolesAfter(i) == RolesAfter(i % 3)
  {
    if i >= 3 {
      RolesAfterMod3(i - 3);
      assert RolesAfter(i - 1) == Rotate(RolesAfter(i - 2));
      assert RolesAfter(i - 2) == Rotate(RolesAfter(i - 3));
    }
  }

  /** The rotation has period 3: three iterations restore every role. */
  lemma RolesPeriodThree(i: nat)
    ensures RolesAfter(i + 3) == RolesAfter(i)
    ensures RolesAfter(3) == InitialRoles
  {
    RolesAfterMod3(i + 3);
    RolesAfterMod3(i);
  }

  /** After the driver's 1000 iterations, `previous` is grid 2, `current` grid 3 and `next` grid 1. */
  lemma FinalRoles()
    ensures RolesAfter(Iterations) == Roles(Grid2, Grid3, Grid1)
  {
    RolesAfterMod3(Iterations);
  }

  /** The contents of the buffers in their three roles. */
  datatype Contents = Contents(previous: Field, current: Field, next: Field)

  /** All three buffers have the shape `rows` x `cols`. */
  predicate Shaped(s: Contents, rows: nat, cols: nat)
  {
    IsField(s.previous, rows, cols) && IsField(s.current, rows, cols) && IsField(s.next, rows, cols)
  }

  /** Three zero buffers of the given shape. */
  function AllZero(rows: nat, cols: nat): Contents
  {
    Contents(Zero(rows, cols), Zero(rows, cols), Zero(rows, cols))
  }

  /**
   * One loop iteration on contents: the step writes into `next`, then the
   * roles rotate so that the result is `current` and the stale `previous`
   * becomes the scratch `next`.
   */
  function Iterate(s: Contents, k: real, ghost rows: nat, ghost cols: nat): (s': Contents)
    requires Shaped(s, rows, cols)
    ensures Shaped(s', rows, cols)
    ensures s'.previous == s.current && s'.next == s.previous
  {
    Contents(s.current, NextField(s.previous, s.current, k), s.previous)
  }

  /** The contents after `n` loop iterations. */
  function Run(s: Contents, k: real, n: nat, ghost rows: nat, ghost cols: nat): (s': Contents)
    requires Shaped(s, rows, cols)
    ensures Shaped(s', rows, cols)
  {
    if n == 0 then s else Iterate(Run(s, k, n - 1, rows, cols), k, rows, cols)
  }

  /**
   * Zero-state stability: starting from three zero buffers, every buffer is
   * still zero after any number of iterations.
   */
  lemma {:induction false} ZeroStaysZero(rows: nat, cols: nat, k: real, n: nat)
    ensures Run(AllZero(rows, cols), k, n, rows, cols) == AllZero(rows, cols)
  {
    if n > 0 {
      ZeroStaysZero(rows, cols, k, n - 1);
      ZeroFieldIsFixed(rows, cols, k);
    }
  }

  /** The buffer a role tag stands for. */
  function BufferArray(b: Buffer, grid1: array2<real>, grid2: array2<real>, grid3: array2<real>): array2<real>
  {
    match b
    case Grid1 => grid1
    case Grid2 => grid2
    case Grid3 => grid3
  }

  /** A freshly allocated buffer of `rows` rows of `cols` zero cells. */
  method NewBuffer(rows: nat, cols: nat) returns (a: array2<real>)
    ensures fresh(a)
    ensures a.Length0 == rows && a.Length1 == cols
    ensures Snapshot(a) == Zero(rows, cols)
  {
    a := new real[rows, cols]((_, _) => 0.0);
    FieldsEqual(Snapshot(a), Zero(rows, cols), rows, cols);
  }

  /**
   * The driver's `main`: allocates three zeroed 100 x 200 buffers and runs
   * 1000 steps, rotating the role references after each one. It returns the
   * buffers and the role references as they stand when the loop ends.
   */
  method RunMain() returns (grid1: array2<real>, grid2: array2<real>, grid3: array2<real>,
                            previous: array2<real>, current: array2<real>, next: array2<real>)
    ensures grid1 != grid2 && grid2 != grid3 && grid3 != grid1
    ensures previous == grid2 && current == grid3 && next == grid1
    ensures Contents(Snapshot(previous), Snapshot(current), Snapshot(next)) ==
            Run(AllZero(Rows, Cols), Coefficient(DeltaT, H), Iterations, Rows, Cols)
    ensures Snapshot(grid1) == Snapshot(grid2) == Snapshot(grid3) == Zero(Rows, Cols)
  {
    grid1 := NewBuffer(Rows, Cols);
    grid2 := NewBuffer(Rows, Cols);
    grid3 := NewBuffer(Rows, Cols);
    ghost var k := Coefficient(DeltaT, H);

    previous := grid1;
    current := grid2;
    next := grid3;

    for i := 0 to Iterations
      invariant previous == BufferArray(RolesAfter(i).previous, grid1, grid2, grid3)
      invariant current == BufferArray(RolesAfter(i).current, grid1, grid2, grid3)
      invariant next == BufferArray(RolesAfter(i).next, grid1, grid2, grid3)
      invariant Contents(Snapshot(previous), Snapshot(current), Snapshot(next)) ==
                Run(AllZero(Rows, Cols), k, i, Rows, Cols)
    {
      RolesAlwaysDistinct(i);
      Step(previous, current, next, DeltaT, H);
      var tmp := previous;
      previous := current;
      current := next;
      next := tmp;
    }

    FinalRoles();
    ZeroStaysZero(Rows, Cols, k, Iterations);
  }

  /** The row the step reads below row 99 of a 200-cell-wide grid: row 100. */
  lemma MainBuffersOutOfBounds()
    ensures (100, 0) in StencilCells(99, 0, Cols, Rows)
    ensures !InBoundsAsWritten(Cols, Rows)
  {
    assert (100, 0) in StencilCells(99, 0, Cols, Rows);
  }

  /**
   * `array_test`: copies element 10 of `source` into `target` and leaves
   * every other element of `target` as it was.
   */
  method ArrayTest(source: array<real>, target: array<real>)
    requires source.Length > 10 && target.Length > 10
    modifies target
    ensures target[..] == old(target[..])[10 := old(source[10])]
  {
    target[10] := source[10];
  }
}
