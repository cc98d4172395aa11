/** The block-allocated byte grid of the `.map` format as a value: what each operation of
    `MapStore` does to it, and what it means as a grid of cells. */
module MapModel {
  import opened LittleEndian
  import opened Sequences
  import opened RowMajor

  const BLOCK_SIZE := 32
  const BLOCK_CELLS := 1024
  const NO_SLOT: i32 := -1

  type Block = b: seq<byte> | |b| == BLOCK_CELLS witness seq(BLOCK_CELLS, _ => 0)

  function EmptyBlock(): Block {
    seq(BLOCK_CELLS, _ => 0)
  }

  datatype Map = Map(
    width: i32,
    height: i32,
    indexes: seq<i32>,      // blockId -> slot, or NO_SLOT
    backIndex: seq<nat>,    // slot -> blockId
    blocks: seq<Block>,     // slot -> cells
    dirtySlots: seq<nat>,
    indexDirty: bool,
    needsHeader: bool,
    generation: nat)
  {
    function BlocksW(): int { width / BLOCK_SIZE }

    function BlocksH(): int { height / BLOCK_SIZE }

    predicate IsDirty() {
      needsHeader || indexDirty || dirtySlots != []
    }

    /** `indexes` and `backIndex` are inverse to each other on dense slots, and the dirty list
        names existing slots once each. The bound keeps block ids and slots within `i32`. */
    predicate Valid() {
      && width > 0 && height > 0 && BlocksW() > 0 && BlocksH() > 0
      && |indexes| == BlocksW() * BlocksH() <= MAX_I32
      && |backIndex| == |blocks|
      && (forall b :: 0 <= b < |indexes| ==>
            indexes[b] == NO_SLOT || (0 <= indexes[b] < |blocks| && backIndex[indexes[b]] == b))
      && (forall s :: 0 <= s < |blocks| ==> backIndex[s] < |indexes| && indexes[backIndex[s]] == s)
      && NoDup(dirtySlots)
      && (forall i :: 0 <= i < |dirtySlots| ==> dirtySlots[i] < |blocks|)
    }

    /** All that reading cells relies on: every entry is the absent mark or names a slot that is there. */
    predicate Backed() {
      && width > 0 && height > 0 && BlocksW() > 0 && BlocksH() > 0
      && |indexes| == BlocksW() * BlocksH()
      && (forall b :: 0 <= b < |indexes| ==> indexes[b] == NO_SLOT || 0 <= indexes[b] < |blocks|)
    }

    /** And writing: the next slot still has a number, if a block can need one. A consistent map has it. */
    predicate Writable() {
      Valid() || (Backed() && (|blocks| <= MAX_I32 || NO_SLOT !in indexes))
    }

    predicate InGrid(x: int, y: int) {
      0 <= x < BlocksW() * BLOCK_SIZE && 0 <= y < BlocksH() * BLOCK_SIZE
    }

    /** The byte a reader sees at any coordinate: 0 outside the grid and in absent blocks. */
    function Cell(x: int, y: int): byte
      requires Backed()
    {
      if !InGrid(x, y) then 0
      else
        BlockIdBound(BlocksW(), BlocksH(), x, y);
        var slot := indexes[BlockId(BlocksW(), x, y)];
        if slot == NO_SLOT then 0 else blocks[slot][CellIndex(x, y)]
    }
  }

  // ---------------------------------------------------------------- coordinates

  function BlockId(blocksW: int, x: int, y: int): int {
    x / BLOCK_SIZE + y / BLOCK_SIZE * blocksW
  }

  function CellIndex(x: int, y: int): int {
    x % BLOCK_SIZE + BLOCK_SIZE * (y % BLOCK_SIZE)
  }

  lemma BlockIdBound(w: int, h: int, x: int, y: int)
    requires 0 <= x < w * BLOCK_SIZE && 0 <= y < h * BLOCK_SIZE
    ensures 0 <= BlockId(w, x, y) < w * h
    ensures 0 <= CellIndex(x, y) < BLOCK_CELLS
  {
    var col, row := x / BLOCK_SIZE, y / BLOCK_SIZE;
    assert 0 <= col < w && 0 <= row <= h - 1;
    assert row * w <= (h - 1) * w;
    assert (h - 1) * w == h * w - w;
  }

  /** Two coordinates of the grid share a byte only if they are the same coordinate. */
  lemma CoordinatesInjective(w: int, x: int, y: int, x': int, y': int)
    requires 0 <= x < w * BLOCK_SIZE && 0 <= x' < w * BLOCK_SIZE && 0 <= y && 0 <= y'
    requires BlockId(w, x, y) == BlockId(w, x', y')
    requires CellIndex(x, y) == CellIndex(x', y')
    ensures x == x' && y == y'
  {
    RowMajorUnique(w, x / BLOCK_SIZE, y / BLOCK_SIZE, x' / BLOCK_SIZE, y' / BLOCK_SIZE);
    RowMajorUnique(BLOCK_SIZE, x % BLOCK_SIZE, y % BLOCK_SIZE, x' % BLOCK_SIZE, y' % BLOCK_SIZE);
  }

  // ---------------------------------------------------------------- operations

  /** A fresh map. */
  function Fresh(width: i32, height: i32): Map
    requires width > 0 && height > 0
  {
    Map(width, height, seq(width / BLOCK_SIZE * (height / BLOCK_SIZE), _ => NO_SLOT), [], [], [], true, true, 0)
  }

  function Marked(dirtySlots: seq<nat>, slot: nat): seq<nat> {
    if slot in dirtySlots then dirtySlots else dirtySlots + [slot]
  }

  /** The slot of a block, given a fresh one (the next, all zero) when it has none. */
  function Allocated(m: Map, id: nat): Map
    requires m.Writable() && id < |m.indexes| && m.indexes[id] == NO_SLOT
  {
    RoomForSlot(m, id);
    m.(indexes := m.indexes[id := |m.blocks|], backIndex := m.backIndex + [id],
       blocks := m.blocks + [EmptyBlock()], indexDirty := true)
  }

  function Stored(m: Map, slot: nat, k: nat, cell: byte): Map
    requires slot < |m.blocks| && k < BLOCK_CELLS
  {
    m.(blocks := m.blocks[slot := m.blocks[slot][k := cell]], dirtySlots := Marked(m.dirtySlots, slot))
  }

  function SetCell(m: Map, x: int, y: int, cell: byte): Map
    requires m.Writable()
  {
    if !m.InGrid(x, y) then m
    else
      BlockIdBound(m.BlocksW(), m.BlocksH(), x, y);
      var id, k := BlockId(m.BlocksW(), x, y), CellIndex(x, y);
      var m1 := if m.indexes[id] == NO_SLOT then Allocated(m, id) else m;
      Stored(m1, m1.indexes[id], k, cell)
  }

  /** An absent block leaves room for a slot: slots never outnumber block ids, so the next slot
      fits the index table's `i32`. */
  lemma SlotAvailable(m: Map, id: nat)
    requires m.Valid() && id < |m.indexes| && m.indexes[id] == NO_SLOT
    ensures |m.blocks| < |m.indexes|
  {
    forall b | b in m.backIndex
      ensures b in Below(|m.indexes|) - {id}
    {
    }
    NoDupFits(m.backIndex, Below(|m.indexes|) - {id});
  }

  lemma RoomForSlot(m: Map, id: nat)
    requires m.Writable() && id < |m.indexes| && m.indexes[id] == NO_SLOT
    ensures |m.blocks| <= MAX_I32
  {
    if m.Valid() {
      SlotAvailable(m, id);
    }
  }

  lemma AllocatedValid(m: Map, id: nat)
    requires m.Valid() && id < |m.indexes| && m.indexes[id] == NO_SLOT
    ensures Allocated(m, id).Valid()
  {
    SlotAvailable(m, id);
  }

  lemma StoredValid(m: Map, slot: nat, k: nat, cell: byte)
    requires m.Valid() && slot < |m.blocks| && k < BLOCK_CELLS
    ensures Stored(m, slot, k, cell).Valid()
  {
    if slot !in m.dirtySlots {
      NoDupAppend(m.dirtySlots, slot);
    }
  }

  lemma FreshValid(width: i32, height: i32)
    requires width >= BLOCK_SIZE && height >= BLOCK_SIZE
    requires width / BLOCK_SIZE * (height / BLOCK_SIZE) <= MAX_I32
    ensures Fresh(width, height).Valid()
    ensures forall x, y :: Fresh(width, height).Cell(x, y) == 0
  {
    var m := Fresh(width, height);
    forall x, y
      ensures m.Cell(x, y) == 0
    {
      if m.InGrid(x, y) {
        BlockIdBound(m.BlocksW(), m.BlocksH(), x, y);
      }
    }
  }

  lemma SetCellValid(m: Map, x: int, y: int, cell: byte)
    requires m.Valid()
    ensures SetCell(m, x, y, cell).Valid()
  {
    if m.InGrid(x, y) {
      BlockIdBound(m.BlocksW(), m.BlocksH(), x, y);
      var id, k := BlockId(m.BlocksW(), x, y), CellIndex(x, y);
      if m.indexes[id] == NO_SLOT {
        AllocatedValid(m, id);
        StoredValid(Allocated(m, id), |m.blocks|, k, cell);
      } else {
        StoredValid(m, m.indexes[id], k, cell);
      }
    }
  }

  /** A write changes the cell it names, and no other. Outside the grid it changes nothing. */
  lemma SetThenGet(m: Map, x: int, y: int, cell: byte, x': int, y': int)
    requires m.Valid()
    ensures SetCell(m, x, y, cell).Valid()
    ensures SetCell(m, x, y, cell).Cell(x', y') ==
            if m.InGrid(x, y) && (x', y') == (x, y) then cell else m.Cell(x', y')
  {
    SetCellValid(m, x, y, cell);
    if m.InGrid(x, y) && m.InGrid(x', y') {
      BlockIdBound(m.BlocksW(), m.BlocksH(), x, y);
      BlockIdBound(m.BlocksW(), m.BlocksH(), x', y');
      if BlockId(m.BlocksW(), x, y) == BlockId(m.BlocksW(), x', y') && CellIndex(x, y) == CellIndex(x', y') {
        CoordinatesInjective(m.BlocksW(), x, y, x', y');
      }
    }
  }
}
