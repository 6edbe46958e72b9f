/**
 * A triangulated M x N grid: one vertex per lattice point at (x, y, 0),
 * one uniform grey colour per vertex, and two triangles per quad stored as
 * six `u32` vertex indices in a flat index buffer.
 *
 * Products of grid indices (`y * N`, `(M - 1) * (N - 1)`, ...) are written
 * with `Mul`, the product of two naturals by repeated addition;
 * `MulIsProduct` shows that it is `*`.
 */
module Geometry {

  datatype Vec3 = Vec3(x: real, y: real, z: real)

  /** A mesh vertex: its position in model space. */
  datatype Vertex = Vertex(position: Vec3)

  /** A vertex colour: red, green and blue. */
  datatype Color = Color(color: Vec3)

  /** The colour every vertex of a new grid gets. */
  const Gray: Color := Color(Vec3(0.5, 0.5, 0.5))

  /** The value zeroed memory holds for a vertex or a colour. */
  const ZeroVec3: Vec3 := Vec3(0.0, 0.0, 0.0)

  /** Number of values of a `u32`. */
  const U32Modulus: nat := 0x1_0000_0000

  /** `v as u32` for a non-negative `usize`: keeps the low 32 bits. */
  function AsU32(v: nat): (r: nat)
    ensures r < U32Modulus
    ensures v < U32Modulus ==> r == v
  {
    v % 0x1_0000_0000
  }

  /** `a * b`: `b` added `a` times. */
  function Mul(a: nat, b: nat): nat
  {
    if a == 0 then 0 else Mul(a - 1, b) + b
  }

  /** `Mul` is multiplication. */
  lemma {:induction false} MulIsProduct(a: nat, b: nat)
    ensures Mul(a, b) == a * b
  {
    if a > 0 {
      MulIsProduct(a - 1, b);
      assert a * b == (a - 1) * b + b;
    }
  }

  /** A product grows with its first factor. */
  lemma {:induction false} MulMonotone(a: nat, a': nat, b: nat)
    requires a <= a'
    ensures Mul(a, b) <= Mul(a', b)
  {
    if a < a' {
      MulMonotone(a, a' - 1, b);
    }
  }

  /**
   * Position of cell (y, x) in the row-major layout of rows of `n` cells,
   * `y * n + x`; for the vertices of the grid it is the vertex id.
   */
  function Offset(n: nat, y: nat, x: nat): nat
  {
    Mul(y, n) + x
  }

  /** Length of the index buffer: six indices per quad, `(M - 1) * (N - 1)` quads. */
  function IndexCount(m: nat, n: nat): nat
    requires m >= 1 && n >= 1
  {
    Mul(m - 1, n - 1) * 6
  }

  /** Position of corner `j` of quad (y, x) in the index buffer: `(y * (N - 1) + x) * 6 + j`. */
  function Slot(n: nat, y: nat, x: nat, j: nat): nat
    requires n >= 1
  {
    (Mul(y, n - 1) + x) * 6 + j
  }

  /**
   * The two triangles of quad (y, x) as vertex ids: A, B, C and C, D, A,
   * where A = (y, x), B = (y, x + 1), C = (y + 1, x + 1) and D = (y + 1, x).
   */
  function QuadCorners(n: nat, y: nat, x: nat): (q: seq<nat>)
    ensures |q| == 6
  {
    var a, b := Offset(n, y, x), Offset(n, y, x + 1);
    var c, d := Offset(n, y + 1, x + 1), Offset(n, y + 1, x);
    [a, b, c, c, d, a]
  }

  /** The triangles of quad (y, x) as the grid writes them: each vertex id cut to 32 bits. */
  function Quad(n: nat, y: nat, x: nat): (q: seq<nat>)
    ensures |q| == 6
  {
    var a, b := Offset(n, y, x), Offset(n, y, x + 1);
    var c, d := Offset(n, y + 1, x + 1), Offset(n, y + 1, x);
    [AsU32(a), AsU32(b), AsU32(c), AsU32(c), AsU32(d), AsU32(a)]
  }

  /**
   * Row and column of quad number `q` in a grid of `w` quads per row,
   * counting row by row: `(q / w, q % w)` for `w >= 1`.
   */
  function QuadPosition(w: nat, q: nat): (p: (nat, nat))
    decreases q
  {
    if w == 0 || q < w then (0, q) else var p := QuadPosition(w, q - w); (p.0 + 1, p.1)
  }

  /** Quad (y, x) of a row of `w` quads is quad number `y * w + x`. */
  lemma {:induction false} QuadPositionOf(w: nat, y: nat, x: nat)
    requires x < w
    ensures QuadPosition(w, Offset(w, y, x)) == (y, x)
  {
    if y > 0 {
      QuadPositionOf(w, y - 1, x);
    }
  }

  /**
   * The quads numbered below `r * w` lie in the first `r` rows, each at a
   * column below `w` (so there is such a quad only when `w >= 1`).
   */
  lemma {:induction false} QuadPositionBound(w: nat, r: nat, q: nat)
    requires q < Mul(r, w)
    ensures w >= 1
    ensures QuadPosition(w, q).0 < r && QuadPosition(w, q).1 < w
  {
    if q >= w {
      QuadPositionBound(w, r - 1, q - w);
    }
  }

  /** Quad number `q` is quad (y, x) with `q == y * w + x` and `x < w`. */
  lemma {:induction false} OffsetOfQuadPosition(w: nat, q: nat)
    requires w >= 1
    ensures QuadPosition(w, q).1 < w
    ensures Offset(w, QuadPosition(w, q).0, QuadPosition(w, q).1) == q
    decreases q
  {
    if q >= w {
      OffsetOfQuadPosition(w, q - w);
    }
  }

  /**
   * Reference content of index `s` of the buffer: corner `s % 6` of quad
   * number `s / 6`, the quads of the grid numbered in row-major order.
   */
  function IndexEntry(n: nat, s: nat): nat
    requires n >= 1
  {
    var p := QuadPosition(n - 1, s / 6);
    Quad(n, p.0, p.1)[s % 6]
  }

  /** Reference content of the index buffer: `(M - 1) * (N - 1)` quads of six indices. */
  function TriangleIndices(m: nat, n: nat): (t: seq<nat>)
    requires m >= 1 && n >= 1
    ensures |t| == IndexCount(m, n)
    ensures forall s :: 0 <= s < |t| ==> t[s] == IndexEntry(n, s)
  {
    seq(IndexCount(m, n), s requires 0 <= s => IndexEntry(n, s))
  }

  /**
   * The six positions the triangulation loop computes for quad (y, x),
   * `(y * (N - 1) + x) * 6 + j`, hold its six corners in order.
   */
  lemma QuadAt(n: nat, y: nat, x: nat)
    requires n >= 1 && x < n - 1
    ensures forall s :: Slot(n, y, x, 0) <= s < Slot(n, y, x, 6) ==>
      IndexEntry(n, s) == Quad(n, y, x)[s - Slot(n, y, x, 0)]
  {
    var q := Offset(n - 1, y, x);
    QuadPositionOf(n - 1, y, x);
    forall s | Slot(n, y, x, 0) <= s < Slot(n, y, x, 6)
      ensures IndexEntry(n, s) == Quad(n, y, x)[s - Slot(n, y, x, 0)]
    {
      var j := s - q * 6;
      SplitSlot(q, j);
      assert s / 6 == q && s % 6 == j;
    }
  }

  /** Index `q * 6 + j` of the buffer is corner `j` of quad `q`. */
  lemma SplitSlot(q: nat, j: nat)
    requires j < 6
    ensures (q * 6 + j) / 6 == q && (q * 6 + j) % 6 == j
  {
  }

  /** The corners of a quad of the grid are vertices of the grid. */
  lemma QuadCornersInGrid(m: nat, n: nat, y: nat, x: nat)
    requires m >= 1 && n >= 1 && y < m - 1 && x < n - 1
    ensures Offset(n, y + 1, x) == Offset(n, y, x) + n
    ensures Offset(n, y + 1, x + 1) < Mul(m, n)
  {
    MulMonotone(y + 2, m, n);
  }

  /**
   * The ids of the corners of a quad grow from A to C, and when C fits in a
   * `u32` the cut to 32 bits leaves all six unchanged.
   */
  lemma QuadUncut(n: nat, y: nat, x: nat)
    requires Offset(n, y + 1, x + 1) < U32Modulus
    ensures forall j :: 0 <= j < 6 ==> QuadCorners(n, y, x)[j] <= Offset(n, y + 1, x + 1)
    ensures Quad(n, y, x) == QuadCorners(n, y, x)
  {
    assert Offset(n, y + 1, x) == Offset(n, y, x) + n;
  }

  /**
   * When every vertex id fits in a `u32`, the cut to 32 bits changes
   * nothing: every index names a vertex of the grid, and the six slots of
   * quad (y, x) hold the ids of its corners A, B, C, C, D, A.
   */
  lemma IndicesAreVertexIds(m: nat, n: nat)
    requires m >= 1 && n >= 1 && Mul(m, n) <= U32Modulus
    ensures forall s :: 0 <= s < |TriangleIndices(m, n)| ==> TriangleIndices(m, n)[s] < Mul(m, n)
    ensures forall y: nat, x: nat, j: nat :: y < m - 1 && x < n - 1 && j < 6 ==>
      Slot(n, y, x, j) < |TriangleIndices(m, n)| && TriangleIndices(m, n)[Slot(n, y, x, j)] == QuadCorners(n, y, x)[j]
  {
    var t := TriangleIndices(m, n);
    forall s | 0 <= s < |t|
      ensures t[s] < Mul(m, n)
    {
      EntryInGrid(m, n, s);
    }
    forall y: nat, x: nat, j: nat | y < m - 1 && x < n - 1 && j < 6
      ensures Slot(n, y, x, j) < |t| && t[Slot(n, y, x, j)] == QuadCorners(n, y, x)[j]
    {
      SlotBound(m, n, y, x + 1);
      QuadCornersInGrid(m, n, y, x);
      QuadUncut(n, y, x);
      QuadAt(n, y, x);
    }
  }

  /**
   * Each entry of the index buffer is below `M * N`: a vertex id of the
   * grid when every id fits in a `u32`, and otherwise below `2^32 < M * N`
   * after the cut to 32 bits.
   */
  lemma EntryInGrid(m: nat, n: nat, s: nat)
    requires m >= 1 && n >= 1
    requires s < IndexCount(m, n)
    ensures IndexEntry(n, s) < Mul(m, n)
  {
    SlotsCover(m, n, s);
    var p := QuadPosition(n - 1, s / 6);
    QuadCornersInGrid(m, n, p.0, p.1);
    if Mul(m, n) <= U32Modulus {
      QuadUncut(n, p.0, p.1);
    }
  }

  /** Different corners of different quads have different slots in the index buffer. */
  lemma SlotsInjective(n: nat, y: nat, x: nat, j: nat, y': nat, x': nat, j': nat)
    requires n >= 1 && x < n - 1 && x' < n - 1 && j < 6 && j' < 6
    requires Slot(n, y, x, j) == Slot(n, y', x', j')
    ensures y == y' && x == x' && j == j'
  {
    SplitSlot(Offset(n - 1, y, x), j);
    SplitSlot(Offset(n - 1, y', x'), j');
    QuadPositionOf(n - 1, y, x);
    QuadPositionOf(n - 1, y', x');
  }

  /**
   * Every position `s` of the index buffer is the slot of corner `s % 6` of
   * a quad of the grid, the quad numbered `s / 6`.
   */
  lemma SlotsCover(m: nat, n: nat, s: nat)
    requires m >= 1 && n >= 1 && s < IndexCount(m, n)
    ensures QuadPosition(n - 1, s / 6).0 < m - 1 && QuadPosition(n - 1, s / 6).1 < n - 1
    ensures Slot(n, QuadPosition(n - 1, s / 6).0, QuadPosition(n - 1, s / 6).1, s % 6) == s
  {
    var q := s / 6;
    assert q < Mul(m - 1, n - 1) by {
      assert q * 6 <= s < Mul(m - 1, n - 1) * 6;
    }
    QuadPositionBound(n - 1, m - 1, q);
    OffsetOfQuadPosition(n - 1, q);
  }

  /** The first quad of row `y + 1` directly follows the last quad of row `y`. */
  lemma RowEndSlot(n: nat, y: nat)
    requires n >= 1
    ensures Slot(n, y, n - 1, 0) == Slot(n, y + 1, 0, 0)
  {
  }

  /** Every quad position up to `N - 1` in a quad row, and the start of row `M - 1`, lie inside the buffer. */
  lemma SlotBound(m: nat, n: nat, y: nat, x: nat)
    requires m >= 1 && n >= 1 && x <= n - 1
    requires y < m - 1 || (y == m - 1 && x == 0)
    ensures Slot(n, y, x, 0) <= IndexCount(m, n)
    ensures y == m - 1 ==> Slot(n, y, x, 0) == IndexCount(m, n)
  {
    if y < m - 1 {
      MulMonotone(y + 1, m - 1, n - 1);
    }
  }

  /** Writes the six indices of quad (y, x) at positions `i .. i + 6`, leaving every other entry alone. */
  method WriteQuad(ind: array<nat>, n: nat, y: nat, x: nat, i: nat)
    requires i + 6 <= ind.Length
    modifies ind
    ensures forall s :: 0 <= s < i ==> ind[s] == old(ind[s])
    ensures forall s :: i <= s < i + 6 ==> ind[s] == Quad(n, y, x)[s - i]
    ensures forall s :: i + 6 <= s < ind.Length ==> ind[s] == old(ind[s])
  {
    // A, B, C,
    ind[i + 0] := AsU32(Offset(n, y + 0, x + 0));
    ind[i + 1] := AsU32(Offset(n, y + 0, x + 1));
    ind[i + 2] := AsU32(Offset(n, y + 1, x + 1));

    // C, D, A,
    ind[i + 3] := AsU32(Offset(n, y + 1, x + 1));
    ind[i + 4] := AsU32(Offset(n, y + 1, x + 0));
    ind[i + 5] := AsU32(Offset(n, y + 0, x + 0));
  }

  /** The triangulation loop of `Grid::new`: fills the index buffer quad by quad, row by row. */
  method Triangulate(m: nat, n: nat) returns (ind: array<nat>)
    requires m >= 1 && n >= 1
    ensures fresh(ind)
    ensures ind[..] == TriangleIndices(m, n)
  {
    var indicesSize := Mul(m - 1, n - 1) * 6;
    ind := new nat[indicesSize](_ => 0);
    for y := 0 to m - 1
      invariant Slot(n, y, 0, 0) <= ind.Length
      invariant forall s :: 0 <= s < Slot(n, y, 0, 0) ==> ind[s] == IndexEntry(n, s)
    {
      for x := 0 to n - 1
        invariant Slot(n, y, x, 0) <= ind.Length
        invariant forall s :: 0 <= s < Slot(n, y, x, 0) ==> ind[s] == IndexEntry(n, s)
      {
        SlotBound(m, n, y, x + 1);
        var i := (Mul(y, n - 1) + x) * 6;
        WriteQuad(ind, n, y, x, i);
        QuadAt(n, y, x);
      }
      RowEndSlot(n, y);
      SlotBound(m, n, y + 1, 0);
    }
    SlotBound(m, n, m - 1, 0);
  }

  /** Concatenation of rows, first row first: the row-major layout. */
  function Flatten<T>(rows: seq<seq<T>>): seq<T>
  {
    if rows == [] then [] else Flatten(rows[..|rows| - 1]) + rows[|rows| - 1]
  }

  /** The row-major layout of rows of `n` cells has `n` elements per row. */
  lemma {:induction false} FlattenLength<T>(rows: seq<seq<T>>, n: nat)
    requires forall y :: 0 <= y < |rows| ==> |rows[y]| == n
    ensures |Flatten(rows)| == Mul(|rows|, n)
  {
    if rows != [] {
      FlattenLength(rows[..|rows| - 1], n);
    }
  }

  /** In the row-major layout of rows of `n` cells, cell `x` of row `y` is element `y * n + x`. */
  lemma {:induction false} FlattenAt<T>(rows: seq<seq<T>>, n: nat, y: nat, x: nat)
    requires forall i :: 0 <= i < |rows| ==> |rows[i]| == n
    requires y < |rows| && x < n
    ensures Offset(n, y, x) < |Flatten(rows)|
    ensures Flatten(rows)[Offset(n, y, x)] == rows[y][x]
  {
    var last := |rows| - 1;
    var init := rows[..last];
    FlattenLength(init, n);
    assert Flatten(rows) == Flatten(init) + rows[last];
    if y < last {
      FlattenAt(init, n, y, x);
      assert init[y] == rows[y];
    }
  }

  /** The rows of a two-dimensional array. */
  function RowsOf<T>(a: array2<T>): (rows: seq<seq<T>>)
    reads a
    ensures |rows| == a.Length0
    ensures forall y :: 0 <= y < a.Length0 ==> |rows[y]| == a.Length1
    ensures forall y, x :: 0 <= y < a.Length0 && 0 <= x < a.Length1 ==> rows[y][x] == a[y, x]
  {
    seq(a.Length0, y requires 0 <= y < a.Length0 reads a =>
      seq(a.Length1, x requires 0 <= x < a.Length1 reads a => a[y, x]))
  }

  /** The elements of a two-dimensional array in row-major order: its rows, concatenated. */
  function RowMajor<T>(a: array2<T>): (s: seq<T>)
    reads a
    ensures |s| == Mul(a.Length0, a.Length1)
    ensures forall y: nat, x: nat :: y < a.Length0 && x < a.Length1 ==>
      Offset(a.Length1, y, x) < |s| && s[Offset(a.Length1, y, x)] == a[y, x]
  {
    RowMajorAt(a);
    Flatten(RowsOf(a))
  }

  /** Cell (y, x) of `a` is element `y * Length1 + x` of its rows, concatenated. */
  lemma RowMajorAt<T>(a: array2<T>)
    ensures |Flatten(RowsOf(a))| == Mul(a.Length0, a.Length1)
    ensures forall y: nat, x: nat :: y < a.Length0 && x < a.Length1 ==>
      Offset(a.Length1, y, x) < |Flatten(RowsOf(a))| && Flatten(RowsOf(a))[Offset(a.Length1, y, x)] == a[y, x]
  {
    var rows := RowsOf(a);
    FlattenLength(rows, a.Length1);
    forall y: nat, x: nat | y < a.Length0 && x < a.Length1
      ensures Offset(a.Length1, y, x) < |Flatten(rows)| && Flatten(rows)[Offset(a.Length1, y, x)] == a[y, x]
    {
      FlattenAt(rows, a.Length1, y, x);
      assert rows[y][x] == a[y, x];
    }
  }

  /** `Grid<M, N, MN>`: the vertex, colour and index buffers of one grid. */
  class Grid {
    const m: nat
    const n: nat
    const mn: nat
    const vertices: array2<Vertex>
    const colors: array2<Color>
    const indices: array<nat>

    /** The buffers have the grid's shape. */
    predicate Valid()
    {
      vertices.Length0 == m && vertices.Length1 == n &&
      colors.Length0 == m && colors.Length1 == n &&
      m >= 1 && n >= 1 && indices.Length == IndexCount(m, n)
    }

    /**
     * `Grid::new`: vertex (y, x) at position (x, y, 0), every colour grey,
     * and the index buffer holding two triangles per quad.
     */
    constructor (m: nat, n: nat, mn: nat)
      requires m >= 1 && n >= 1
      ensures this.m == m && this.n == n && this.mn == mn
      ensures Valid()
      ensures fresh(vertices) && fresh(colors) && fresh(indices)
      ensures forall y, x :: 0 <= y < m && 0 <= x < n ==>
        vertices[y, x] == Vertex(Vec3(x as real, y as real, 0.0)) && colors[y, x] == Gray
      ensures indices[..] == TriangleIndices(m, n)
    {
      var vs := new Vertex[m, n]((_, _) => Vertex(ZeroVec3));
      for y := 0 to m
        modifies vs
        invariant forall i, j :: 0 <= i < y && 0 <= j < n ==> vs[i, j] == Vertex(Vec3(j as real, i as real, 0.0))
      {
        for x := 0 to n
          modifies vs
          invariant forall i, j :: 0 <= i < y && 0 <= j < n ==> vs[i, j] == Vertex(Vec3(j as real, i as real, 0.0))
          invariant forall j :: 0 <= j < x ==> vs[y, j] == Vertex(Vec3(j as real, y as real, 0.0))
        {
          vs[y, x] := Vertex(Vec3(x as real, y as real, 0.0));
        }
      }

      var color := Gray;
      var cs := new Color[m, n]((_, _) => Color(ZeroVec3));
      for y := 0 to m
        modifies cs
        invariant forall i, j :: 0 <= i < y && 0 <= j < n ==> cs[i, j] == Gray
      {
        for x := 0 to n
          modifies cs
          invariant forall i, j :: 0 <= i < y && 0 <= j < n ==> cs[i, j] == Gray
          invariant forall j :: 0 <= j < x ==> cs[y, j] == Gray
        {
          cs[y, x] := color;
        }
      }

      var ind := Triangulate(m, n);

      this.m, this.n, this.mn := m, n, mn;
      vertices, colors, indices := vs, cs, ind;
    }

    /** `vertices_slice`: the `MN` vertices in row-major order, vertex (y, x) at `y * N + x`. */
    function VerticesSlice(): (s: seq<Vertex>)
      reads vertices
      requires Valid() && mn == Mul(m, n)
      ensures |s| == mn
      ensures forall y: nat, x: nat :: y < m && x < n ==> Offset(n, y, x) < mn && s[Offset(n, y, x)] == vertices[y, x]
    {
      RowMajor(vertices)
    }

    /** `colors_slice`: the `MN` colours in row-major order, colour (y, x) at `y * N + x`. */
    function ColorsSlice(): (s: seq<Color>)
      reads colors
      requires Valid() && mn == Mul(m, n)
      ensures |s| == mn
      ensures forall y: nat, x: nat :: y < m && x < n ==> Offset(n, y, x) < mn && s[Offset(n, y, x)] == colors[y, x]
    {
      RowMajor(colors)
    }

    /** `indices_slice`: the whole index buffer, in order. */
    function IndicesSlice(): (s: seq<nat>)
      reads indices
      requires Valid()
      ensures |s| == IndexCount(m, n)
      ensures forall k :: 0 <= k < |s| ==> s[k] == indices[k]
    {
      indices[..]
    }
  }
}
