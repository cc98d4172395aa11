/** Map files whose table is not one-to-one: what reading and writing cells then amounts to. */
module MapSharing {
  import opened Wrappers
  import opened LittleEndian
  import opened MapModel
  import opened MapFlush
  import opened MapCodec

  /** No two blocks name one slot. Slots that no block names do not matter. */
  ghost predicate Unshared(t: seq<i32>) {
    forall b, c :: 0 <= b < c < |t| && t[b] == t[c] ==> t[b] == NO_SLOT
  }

  /** Every file that is accepted can be read and written cell by cell. */
  lemma DecodedWritable(bytes: seq<byte>)
    requires Decode(bytes).Success?
    ensures Decode(bytes).value.Writable()
  {
    DecodedParts(bytes);
    TableErrorExact(Decode(bytes).value.indexes, |Decode(bytes).value.blocks|);
  }

  // ---------------------------------------------------------------- one write

  /** A write changes the cell it names and no other, as in a table from coordinates to bytes. */
  ghost predicate WritesOneCell(m: Map, x: int, y: int, cell: byte)
    requires m.Writable()
  {
    && SetCell(m, x, y, cell).Backed()
    && forall x', y' :: SetCell(m, x, y, cell).Cell(x', y')
                        == if m.InGrid(x, y) && (x', y') == (x, y) then cell else m.Cell(x', y')
  }

  lemma WriteBacked(m: Map, x: int, y: int, cell: byte)
    requires m.Writable()
    ensures SetCell(m, x, y, cell).Backed()
  {
    if m.InGrid(x, y) {
      BlockIdBound(m.BlocksW(), m.BlocksH(), x, y);
    }
  }

  lemma WriteUnshared(m: Map, x: int, y: int, cell: byte)
    requires m.Writable() && Unshared(m.indexes)
    ensures Unshared(SetCell(m, x, y, cell).indexes)
  {
    if m.InGrid(x, y) {
      BlockIdBound(m.BlocksW(), m.BlocksH(), x, y);
    }
  }

  lemma UnsharedWrite(m: Map, x: int, y: int, cell: byte)
    requires m.Writable() && Unshared(m.indexes)
    ensures WritesOneCell(m, x, y, cell)
  {
    WriteBacked(m, x, y, cell);
    forall x', y'
      ensures SetCell(m, x, y, cell).Cell(x', y')
           == if m.InGrid(x, y) && (x', y') == (x, y) then cell else m.Cell(x', y')
    {
      UnsharedRead(m, x, y, cell, x', y');
    }
  }

  lemma UnsharedRead(m: Map, x: int, y: int, cell: byte, x': int, y': int)
    requires m.Writable() && Unshared(m.indexes) && SetCell(m, x, y, cell).Backed()
    ensures SetCell(m, x, y, cell).Cell(x', y')
         == if m.InGrid(x, y) && (x', y') == (x, y) then cell else m.Cell(x', y')
  {
    if m.InGrid(x, y) && m.InGrid(x', y') {
      BlockIdBound(m.BlocksW(), m.BlocksH(), x, y);
      BlockIdBound(m.BlocksW(), m.BlocksH(), x', y');
      if BlockId(m.BlocksW(), x, y) == BlockId(m.BlocksW(), x', y') && CellIndex(x, y) == CellIndex(x', y') {
        CoordinatesInjective(m.BlocksW(), x, y, x', y');
      }
    }
  }

  /** The first cell of a block. */
  function Corner(w: int, id: int): (int, int)
    requires w > 0
  {
    (id % w * BLOCK_SIZE, id / w * BLOCK_SIZE)
  }

  lemma CornerOf(m: Map, id: nat)
    requires m.Backed() && id < |m.indexes|
    ensures var (x, y) := Corner(m.BlocksW(), id);
            m.InGrid(x, y) && BlockId(m.BlocksW(), x, y) == id && CellIndex(x, y) == 0
  {
    RowOf(id, m.BlocksW(), m.BlocksH());
  }

  lemma RowOf(id: nat, w: int, h: int)
    requires w > 0 && id < w * h
    ensures 0 <= id % w < w && 0 <= id / w < h && id == id / w * w + id % w
  {
    if id / w >= h {
      RowsExceed(id / w, h, w);
    }
  }

  lemma RowsExceed(row: int, h: int, w: int)
    requires row >= h && w > 0
    ensures row * w >= h * w
  {
    assert (row - h) * w >= 0;
  }

  /** Two blocks with one slot: writing the first cell of one writes that of the other. */
  lemma SharedWrite(m: Map, b: nat, c: nat)
    requires m.Writable() && b < c < |m.indexes| && m.indexes[b] == m.indexes[c] != NO_SLOT
    ensures var ((x, y), (x', y')) := (Corner(m.BlocksW(), b), Corner(m.BlocksW(), c));
            && m.InGrid(x, y) && m.InGrid(x', y') && (x', y') != (x, y)
            && forall cell :: SetCell(m, x, y, cell).Backed() && SetCell(m, x, y, cell).Cell(x', y') == cell
  {
    CornerOf(m, b);
    CornerOf(m, c);
    var (x, y) := Corner(m.BlocksW(), b);
    forall cell
      ensures SetCell(m, x, y, cell).Backed()
    {
      WriteBacked(m, x, y, cell);
    }
  }

  /** Cells behave as a table from coordinates to bytes if and only if no two blocks name one slot. */
  lemma CellsSoundExactly(m: Map)
    requires m.Writable()
    ensures Unshared(m.indexes) <==> forall x, y, cell :: WritesOneCell(m, x, y, cell)
  {
    if Unshared(m.indexes) {
      forall x, y, cell
        ensures WritesOneCell(m, x, y, cell)
      {
        UnsharedWrite(m, x, y, cell);
      }
    } else {
      var b, c :| 0 <= b < c < |m.indexes| && m.indexes[b] == m.indexes[c] != NO_SLOT;
      SharedWrite(m, b, c);
      var (x, y) := Corner(m.BlocksW(), b);
      var (x', y') := Corner(m.BlocksW(), c);
      var other: byte := if m.Cell(x', y') == 0 then 1 else 0;
      assert SetCell(m, x, y, other).Cell(x', y') == other;
      assert !WritesOneCell(m, x, y, other);
    }
  }

  // ---------------------------------------------------------------- any number of writes

  datatype CellWrite = CellWrite(x: int, y: int, cell: byte)

  /** How many blocks have no slot yet. */
  function Absent(t: seq<i32>): nat {
    if t == [] then 0 else Absent(t[..|t| - 1]) + if t[|t| - 1] == NO_SLOT then 1 else 0
  }

  lemma {:induction false} SomeAbsent(t: seq<i32>)
    ensures NO_SLOT in t <==> Absent(t) > 0
  {
    if t != [] {
      SomeAbsent(t[..|t| - 1]);
      assert t == t[..|t| - 1] + [t[|t| - 1]];
    }
  }

  lemma {:induction false} OneLessAbsent(t: seq<i32>, b: nat, slot: i32)
    requires b < |t| && t[b] == NO_SLOT != slot
    ensures Absent(t[b := slot]) == Absent(t) - 1
  {
    var front, changed := t[..|t| - 1], t[b := slot];
    if b == |t| - 1 {
      assert changed[..|t| - 1] == front;
    } else {
      OneLessAbsent(front, b, slot);
      assert changed[..|t| - 1] == front[b := slot];
    }
  }

  /** There are numbers for all slots that can still be needed. */
  ghost predicate Roomy(m: Map) {
    m.Backed() && |m.blocks| + Absent(m.indexes) <= MAX_I32 + 1
  }

  /** A write takes a slot from the blocks that have none, or none at all. */
  lemma WriteRoomy(m: Map, x: int, y: int, cell: byte)
    requires Roomy(m)
    ensures m.Writable() && Roomy(SetCell(m, x, y, cell))
  {
    SomeAbsent(m.indexes);
    if m.InGrid(x, y) {
      BlockIdBound(m.BlocksW(), m.BlocksH(), x, y);
      var id := BlockId(m.BlocksW(), x, y);
      if m.indexes[id] == NO_SLOT {
        OneLessAbsent(m.indexes, id, |m.blocks|);
      }
      WriteBacked(m, x, y, cell);
    }
  }

  /** A list of writes, of any length. */
  ghost function AllWritten(m: Map, ws: seq<CellWrite>): (r: Map)
    requires Roomy(m)
    ensures Roomy(r)
  {
    if ws == [] then m
    else
      var front := AllWritten(m, ws[..|ws| - 1]);
      var w := ws[|ws| - 1];
      WriteRoomy(front, w.x, w.y, w.cell);
      SetCell(front, w.x, w.y, w.cell)
  }

  /** What a table from coordinates to bytes holds after the writes. */
  function LastWritten(m: Map, ws: seq<CellWrite>, x: int, y: int): byte
    requires m.Backed()
  {
    if ws == [] then m.Cell(x, y)
    else
      var w := ws[|ws| - 1];
      if (w.x, w.y) == (x, y) && m.InGrid(x, y) then w.cell else LastWritten(m, ws[..|ws| - 1], x, y)
  }

  /** Over any writes to the map read from any accepted file without shared slots, every cell reads as
      it was last written. */
  lemma {:induction false} WritesReadBack(m: Map, ws: seq<CellWrite>, x: int, y: int)
    requires Roomy(m) && Unshared(m.indexes)
    ensures Unshared(AllWritten(m, ws).indexes) && AllWritten(m, ws).BlocksW() == m.BlocksW()
    ensures AllWritten(m, ws).BlocksH() == m.BlocksH() && AllWritten(m, ws).Cell(x, y) == LastWritten(m, ws, x, y)
  {
    hide Unshared, Absent;
    if ws != [] {
      var front, w := AllWritten(m, ws[..|ws| - 1]), ws[|ws| - 1];
      WritesReadBack(m, ws[..|ws| - 1], x, y);
      WriteRoomy(front, w.x, w.y, w.cell);
      WriteUnshared(front, w.x, w.y, w.cell);
      UnsharedRead(front, w.x, w.y, w.cell, x, y);
    }
  }

  // ---------------------------------------------------------------- a file that shares

  /** Sixty-four by thirty-two cells, both blocks in slot 0. */
  function SharingMap(): Map {
    Map(64, 32, [0, 0], [1], [EmptyBlock()], [], false, false, 0)
  }

  /** The file is accepted, and a write to the first column shows in the thirty-third. */
  lemma SharingFile()
    ensures var m := SharingMap();
            && Decode(Serialize(m)) == Success(m) && m.Writable() && !Unshared(m.indexes)
            && m.Cell(32, 0) == 0
            && SetCell(m, 0, 0, 1).Backed() && SetCell(m, 0, 0, 1).Cell(32, 0) == 1
  {
    hide Serialize, Decode;
    SharingDecoded();
    SharingCells();
  }

  lemma SharingDecoded()
    ensures Decode(Serialize(SharingMap())) == Success(SharingMap())
  {
    hide Serialize, Entries, BlocksOf;
    var m := SharingMap();
    assert Serialize(m) + [] == Serialize(m);
    SerializedHead(m, []);
    SharingTable();
  }

  lemma SharingCells()
    ensures var m := SharingMap();
            && m.Writable() && !Unshared(m.indexes) && m.Cell(32, 0) == 0
            && SetCell(m, 0, 0, 1).Backed() && SetCell(m, 0, 0, 1).Cell(32, 0) == 1
  {
    var m := SharingMap();
    assert m.indexes[0] == m.indexes[1] == 0;
    WriteBacked(m, 0, 0, 1);
  }

  lemma SharingTable()
    ensures SlotCount([0, 0]) == 1 && TableError([0, 0], 1).None? && Owners([0, 0], 1) == [1]
  {
    var t: seq<i32> := [0, 0];
    assert t[..1] == [0] && t[..1][..0] == [];
    assert SlotCount(t[..1]) == 1;
    TableErrorExact(t, 1);
  }
}
