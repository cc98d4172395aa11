/** The chunk-major flat array of the generator: where each cell lives, and the pass that lays the
    skeleton out in it chunk by chunk. */
module GridIndex {
  import opened LittleEndian
  import opened RowMajor

  const CHUNK := 32
  const CHUNK_CELLS := 1024
  const SPAWN_CLEAR_ROWS := 50

  /** A grid of chunks. */
  datatype Grid = Grid(chunksW: nat, chunksH: nat) {
    function W(): nat { chunksW * CHUNK }

    function H(): nat { chunksH * CHUNK }

    function Size(): nat { chunksW * chunksH * CHUNK_CELLS }

    predicate Has(x: int, y: int) {
      0 <= x < W() && 0 <= y < H()
    }
  }

  /** `cell_index_in_map`. */
  function CellIndex(g: Grid, x: int, y: int): int {
    (y / CHUNK + g.chunksH * (x / CHUNK)) * CHUNK_CELLS + (y % CHUNK + CHUNK * (x % CHUNK))
  }

  /** The inverse: the coordinates of a place of the flat array. */
  function Place(g: Grid, i: nat): (int, int)
    requires g.chunksH > 0
  {
    var chunk, cell := i / CHUNK_CELLS, i % CHUNK_CELLS;
    (chunk / g.chunksH * CHUNK + cell / CHUNK, chunk % g.chunksH * CHUNK + cell % CHUNK)
  }

  /** The array goes down each column of a chunk, chunk by chunk down each column of chunks: one place to the
      cell below, 32 to the one on the right, 1024 to the chunk below, a column of chunks to the one on the right. */
  lemma IndexSteps(g: Grid, x: int, y: int)
    ensures CellIndex(g, 0, 0) == 0
    ensures y % 32 != 31 ==> CellIndex(g, x, y + 1) == CellIndex(g, x, y) + 1
    ensures x % 32 != 31 ==> CellIndex(g, x + 1, y) == CellIndex(g, x, y) + 32
    ensures CellIndex(g, x, y + 32) == CellIndex(g, x, y) + 1024
    ensures CellIndex(g, x + 32, y) == CellIndex(g, x, y) + 1024 * g.chunksH
  {
    var row, column := y / 32, x / 32;
    assert (y + 32) / 32 == row + 1 && (x + 32) / 32 == column + 1;
    assert g.chunksH * (column + 1) == g.chunksH * column + g.chunksH;
  }

  lemma ChunkBound(w: nat, h: nat, cx: int, cy: int)
    requires 0 <= cx < w && 0 <= cy < h
    ensures 0 <= cy + h * cx < w * h
  {
    assert h * cx <= h * (w - 1);
    assert h * (w - 1) == w * h - h;
  }

  lemma ChunkSplit(h: nat, cx: int, cy: int)
    requires 0 <= cx && 0 <= cy < h
    ensures (cy + h * cx) / h == cx && (cy + h * cx) % h == cy
  {
    var n := cy + h * cx;
    assert n == h * (n / h) + n % h;
    RowMajorUnique(h, cy, cx, n % h, n / h);
  }

  lemma InRange(g: Grid, x: int, y: int)
    requires g.Has(x, y)
    ensures 0 <= CellIndex(g, x, y) < g.Size()
  {
    ChunkBound(g.chunksW, g.chunksH, x / CHUNK, y / CHUNK);
  }

  /** Every cell of the grid is found again from its place. */
  lemma PlaceOfIndex(g: Grid, x: int, y: int)
    requires g.Has(x, y)
    ensures 0 <= CellIndex(g, x, y) < g.Size()
    ensures Place(g, CellIndex(g, x, y)) == (x, y)
  {
    InRange(g, x, y);
    var cx, cy := x / CHUNK, y / CHUNK;
    var cell := y % CHUNK + CHUNK * (x % CHUNK);
    var i := CellIndex(g, x, y);
    assert i / CHUNK_CELLS == cy + g.chunksH * cx && i % CHUNK_CELLS == cell;
    ChunkSplit(g.chunksH, cx, cy);
    assert cell / CHUNK == x % CHUNK && cell % CHUNK == y % CHUNK;
  }

  /** Every place of the flat array belongs to a cell of the grid. */
  lemma IndexOfPlace(g: Grid, i: nat)
    requires i < g.Size()
    ensures g.chunksH > 0
    ensures var (x, y) := Place(g, i); g.Has(x, y) && CellIndex(g, x, y) == i
  {
    assert g.chunksH == 0 ==> g.Size() == 0;
    var h, chunk, cell := g.chunksH, i / CHUNK_CELLS, i % CHUNK_CELLS;
    var (x, y) := Place(g, i);
    assert x / CHUNK == chunk / h && x % CHUNK == cell / CHUNK;
    assert y / CHUNK == chunk % h && y % CHUNK == cell % CHUNK;
    assert chunk < g.chunksW * h;
    QuotientBound(chunk, g.chunksW, h);
    assert h * (chunk / h) + chunk % h == chunk;
  }

  lemma QuotientBound(n: nat, w: nat, h: nat)
    requires h > 0 && n < w * h
    ensures n / h < w
  {
    var q := n / h;
    assert q * h <= n;
    assert q * h - w * h == (q - w) * h;
    assert q >= w ==> (q - w) * h >= 0;
  }

  /** Distinct cells live in distinct places. */
  lemma IndexInjective(g: Grid, x: int, y: int, x': int, y': int)
    requires g.Has(x, y) && g.Has(x', y')
    requires CellIndex(g, x, y) == CellIndex(g, x', y')
    ensures x == x' && y == y'
  {
    PlaceOfIndex(g, x, y);
    PlaceOfIndex(g, x', y');
  }

  // ---------------------------------------------------------------- the layout pass

  /** What the layout gives a cell: the skeleton, with the spawn rows cleared. */
  function LaidOut(g: Grid, skeleton: seq<byte>, x: int, y: int): byte
    requires g.Has(x, y) && |skeleton| == g.W() * g.H()
  {
    if y < SPAWN_CLEAR_ROWS then 0
    else
      ChunkBound(g.W(), g.H(), x, y);
      skeleton[x * g.H() + y]
  }

  /** The first fifty rows are cleared, below them each column of the skeleton is where it was. */
  lemma LaidOutExactly(g: Grid, skeleton: seq<byte>, x: int, y: int)
    requires 0 <= x < 32 * g.chunksW && 0 <= y < 32 * g.chunksH && |skeleton| == g.W() * g.H()
    ensures 0 <= x * (32 * g.chunksH) + y < |skeleton|
    ensures LaidOut(g, skeleton, x, y) == if y < 50 then 0 else skeleton[x * (32 * g.chunksH) + y]
  {
    ChunkBound(g.W(), g.H(), x, y);
  }

  /** Place i holds what its own cell should hold, with that cell's own durability. */
  ghost predicate Right(g: Grid, skeleton: seq<byte>, table: seq<real>, cell: byte, durability: real, i: nat)
    requires i < g.Size() && |skeleton| == g.W() * g.H() && |table| == 256
  {
    IndexOfPlace(g, i);
    var (x, y) := Place(g, i);
    cell == LaidOut(g, skeleton, x, y) && durability == table[cell]
  }

  /** One chunk task. It writes its own slice and nothing else. */
  method LayOutChunk(g: Grid, skeleton: seq<byte>, table: seq<real>, ci: nat, cells: array<byte>,
                     durability: array<real>)
    requires |skeleton| == g.W() * g.H() && |table| == 256
    requires cells.Length == durability.Length == g.Size() && ci < g.chunksW * g.chunksH
    modifies cells, durability
    ensures forall i :: ci * CHUNK_CELLS <= i < (ci + 1) * CHUNK_CELLS ==>
              Right(g, skeleton, table, cells[i], durability[i], i)
    ensures forall i :: 0 <= i < g.Size() && !(ci * CHUNK_CELLS <= i < (ci + 1) * CHUNK_CELLS) ==>
              cells[i] == old(cells[i]) && durability[i] == old(durability[i])
  {
    hide LaidOut;
    SliceInside(g, ci);
    var base := ci * CHUNK_CELLS;
    var baseX, baseY := ci / g.chunksH * CHUNK, ci % g.chunksH * CHUNK;
    for lx := 0 to CHUNK
      invariant forall i :: base <= i < base + CHUNK * lx ==> Right(g, skeleton, table, cells[i], durability[i], i)
      invariant forall i :: 0 <= i < g.Size() && !(base <= i < base + CHUNK_CELLS) ==>
                  cells[i] == old(cells[i]) && durability[i] == old(durability[i])
    {
      for ly := 0 to CHUNK
        invariant forall i :: base <= i < base + CHUNK * lx + ly ==>
                    Right(g, skeleton, table, cells[i], durability[i], i)
        invariant forall i :: 0 <= i < g.Size() && !(base <= i < base + CHUNK_CELLS) ==>
                    cells[i] == old(cells[i]) && durability[i] == old(durability[i])
      {
        var x, y, i := baseX + lx, baseY + ly, base + (ly + CHUNK * lx);
        PlaceInChunk(g, ci, lx, ly);
        IndexOfPlace(g, i);
        var cell := LaidOut(g, skeleton, x, y);
        cells[i] := cell;
        durability[i] := table[cell];
      }
    }
  }

  lemma SliceInside(g: Grid, ci: nat)
    requires ci < g.chunksW * g.chunksH
    ensures g.chunksH > 0 && (ci + 1) * CHUNK_CELLS <= g.Size()
  {
    assert g.chunksH == 0 ==> g.chunksW * g.chunksH == 0;
  }

  lemma PlaceInChunk(g: Grid, ci: nat, lx: nat, ly: nat)
    requires g.chunksH > 0 && lx < CHUNK && ly < CHUNK
    ensures Place(g, ci * CHUNK_CELLS + (ly + CHUNK * lx))
         == (ci / g.chunksH * CHUNK + lx, ci % g.chunksH * CHUNK + ly)
  {
    var cell := ly + CHUNK * lx;
    var i := ci * CHUNK_CELLS + cell;
    assert i / CHUNK_CELLS == ci && i % CHUNK_CELLS == cell;
    assert cell / CHUNK == lx && cell % CHUNK == ly;
  }

  /** All chunk tasks, in any order: their slices are disjoint and cover the array, so every cell
      ends up with its own value and its own durability. */
  method LayOut(g: Grid, skeleton: seq<byte>, table: seq<real>, order: seq<nat>,
                cells: array<byte>, durability: array<real>)
    requires |skeleton| == g.W() * g.H() && |table| == 256
    requires cells.Length == durability.Length == g.Size()
    requires forall k :: 0 <= k < |order| ==> order[k] < g.chunksW * g.chunksH
    requires forall ci :: 0 <= ci < g.chunksW * g.chunksH ==> ci in order
    modifies cells, durability
    ensures forall x, y :: g.Has(x, y) ==>
              var i := CellIndex(g, x, y);
              0 <= i < g.Size() && cells[i] == LaidOut(g, skeleton, x, y) && durability[i] == table[cells[i]]
  {
    for k := 0 to |order|
      invariant forall i :: 0 <= i < g.Size() && i / CHUNK_CELLS in order[..k] ==>
                  Right(g, skeleton, table, cells[i], durability[i], i)
    {
      LayOutChunk(g, skeleton, table, order[k], cells, durability);
      assert order[..k + 1] == order[..k] + [order[k]];
    }
    assert order[..|order|] == order;
    forall x, y | g.Has(x, y)
      ensures var i := CellIndex(g, x, y);
              0 <= i < g.Size() && cells[i] == LaidOut(g, skeleton, x, y) && durability[i] == table[cells[i]]
    {
      var i := CellIndex(g, x, y);
      PlaceOfIndex(g, x, y);
      assert i / CHUNK_CELLS in order;
      assert Right(g, skeleton, table, cells[i], durability[i], i);
    }
  }
}
