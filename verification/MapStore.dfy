/** `MapStore` and `MapFlushBatch` as they update themselves and the file in place, each method
    proved against the value semantics of `MapModel`, `MapFlush` and `MapCodec`. */
module MapStorage {
  import opened Wrappers
  import opened LittleEndian
  import opened Disk
  import opened MapModel
  import opened MapFlush
  import opened MapCodec

  /** A file opened without truncation, on a device that accepts only so many more bytes. */
  class File {
    var bytes: seq<byte>
    var position: nat
    var room: nat

    constructor (bytes: seq<byte>, room: nat)
      ensures this.bytes == bytes && this.room == room && position == 0
    {
      this.bytes, this.room, this.position := bytes, room, 0;
    }

    method Seek(at: nat)
      modifies this`position
      ensures position == at
    {
      position := at;
    }

    /** Writes everything, or as much as the device takes and reports the failure. */
    method WriteAll(data: seq<byte>) returns (ok: bool)
      modifies this
      ensures ok == (|data| <= old(room))
      ensures bytes == WriteAt(old(bytes), old(position), if ok then data else data[..old(room)])
      ensures room == if ok then old(room) - |data| else 0
    {
      var n := if |data| <= room then |data| else room;
      assert data[..|data|] == data;
      bytes := WriteAt(bytes, position, data[..n]);
      ok, room, position := n == |data|, room - n, position + n;
    }
  }

  /** One write of a batch, then the rest. */
  lemma WritePrefixStep(disk: seq<byte>, w: Write, ws: seq<Write>, n: nat)
    ensures |w.data| <= n ==>
              WritePrefix(disk, [w] + ws, n) == WritePrefix(WriteAt(disk, w.at, w.data), ws, n - |w.data|)
    ensures n < |w.data| ==> WritePrefix(disk, [w] + ws, n) == WriteAt(disk, w.at, w.data[..n])
    ensures Size([w] + ws) == |w.data| + Size(ws)
  {
    assert ([w] + ws)[1..] == ws;
    if n == |w.data| {
      assert w.data[..n] == w.data;
      WritePrefixNothing(WriteAt(disk, w.at, w.data), ws);
    }
  }

  lemma WritePrefixNothing(disk: seq<byte>, ws: seq<Write>)
    ensures WritePrefix(disk, ws, 0) == disk
  {
    if ws != [] {
      assert ws[0].data[..0] == [];
    }
  }

  /** The writer's loop over block images. */
  method WriteSlots(indexLen: nat, slots: seq<SlotImage>, file: File) returns (ok: bool)
    modifies file
    ensures file.bytes == WritePrefix(old(file.bytes), SlotWrites(indexLen, slots), old(file.room))
    ensures ok == (Size(SlotWrites(indexLen, slots)) <= old(file.room))
  {
    ghost var ws := SlotWrites(indexLen, slots);
    for i := 0 to |slots|
      invariant WritePrefix(file.bytes, ws[i..], file.room) == WritePrefix(old(file.bytes), ws, old(file.room))
      invariant (Size(ws) <= old(file.room)) == (Size(ws[i..]) <= file.room)
    {
      assert ws[i..] == [SlotWrite(indexLen, slots[i])] + ws[i + 1..];
      WritePrefixStep(file.bytes, SlotWrite(indexLen, slots[i]), ws[i + 1..], file.room);
      file.Seek(SlotAt(indexLen, slots[i].slot));
      ok := file.WriteAll(slots[i].data);
      if !ok { return; }
    }
    ok := true;
  }

  /** `MapFlushBatch::write_to`: the file gets exactly the prefix of the batch's writes that the
      device accepts. */
  method WriteTo(b: Batch, file: File) returns (ok: bool)
    modifies file
    ensures file.bytes == WritePrefix(old(file.bytes), Writes(b), old(file.room))
    ensures ok == (Size(Writes(b)) <= old(file.room))
  {
    hide WritePrefix, SlotWrites, HeaderBytes, TableBytes, Size;
    ghost var ws := SlotWrites(b.indexLen, b.slots);
    assert Writes(b) == HeaderWrites(b) + (TableWrites(b) + ws);
    if b.header.Some? {
      WritePrefixStep(file.bytes, HeaderWrites(b)[0], TableWrites(b) + ws, file.room);
      file.Seek(0);
      ok := file.WriteAll(HeaderBytes(b.header.value.0, b.header.value.1));
      if !ok { return; }
    } else {
      assert HeaderWrites(b) + (TableWrites(b) + ws) == TableWrites(b) + ws;
    }
    if b.indexes.Some? {
      WritePrefixStep(file.bytes, TableWrites(b)[0], ws, file.room);
      file.Seek(HEADER_BYTES);
      ok := file.WriteAll(TableBytes(b.indexes.value));
      if !ok { return; }
    } else {
      assert TableWrites(b) + ws == ws;
    }
    ok := WriteSlots(b.indexLen, b.slots, file);
  }

  class MapStore {
    var width: i32
    var height: i32
    var blocksW: int
    var blocksH: int
    var indexes: seq<i32>
    var backIndex: seq<nat>
    var blocks: seq<Block>
    var dirty: seq<bool>
    var dirtySlots: seq<nat>
    var indexDirty: bool
    var needsHeader: bool
    var nextFlushGeneration: nat

    ghost function Model(): Map
      reads this
    {
      Map(width, height, indexes, backIndex, blocks, dirtySlots, indexDirty, needsHeader, nextFlushGeneration)
    }

    /** The mask holds true exactly for the slots on the dirty list. */
    ghost predicate MaskMatches()
      reads this
    {
      && |dirty| == |blocks|
      && (forall s: nat :: s < |dirty| ==> (dirty[s] <==> s in dirtySlots))
      && (forall i :: 0 <= i < |dirtySlots| ==> dirtySlots[i] < |dirty|)
    }

    ghost predicate Valid()
      reads this
    {
      && Model().Valid() && MaskMatches()
      && blocksW == Model().BlocksW() && blocksH == Model().BlocksH()
    }

    constructor (width: i32, height: i32)
      requires width > 0 && height > 0
      ensures Model() == Fresh(width, height) && MaskMatches()
      ensures blocksW == Model().BlocksW() && blocksH == Model().BlocksH()
    {
      this.width, this.height := width, height;
      blocksW, blocksH := width / BLOCK_SIZE, height / BLOCK_SIZE;
      indexes := seq(width / BLOCK_SIZE * (height / BLOCK_SIZE), _ => NO_SLOT);
      backIndex, blocks, dirty, dirtySlots := [], [], [], [];
      indexDirty, needsHeader, nextFlushGeneration := true, true, 0;
    }

    function Locate(x: int, y: int): (r: Option<(nat, nat)>)
      requires Valid()
      reads this
      ensures r.Some? <==> Model().InGrid(x, y)
      ensures r.Some? ==> r.value.0 < |indexes| && r.value.1 < BLOCK_CELLS
      ensures r.Some? ==> r.value == (BlockId(Model().BlocksW(), x, y), CellIndex(x, y))
    {
      if x < 0 || y < 0 || x >= blocksW * BLOCK_SIZE || y >= blocksH * BLOCK_SIZE then None
      else
        BlockIdBound(blocksW, blocksH, x, y);
        Some((x / BLOCK_SIZE + y / BLOCK_SIZE * blocksW, x % BLOCK_SIZE + BLOCK_SIZE * (y % BLOCK_SIZE)))
    }

    method GetCell(x: int, y: int) returns (cell: byte)
      requires Valid()
      ensures cell == Model().Cell(x, y)
    {
      var place := Locate(x, y);
      if place.None? { return 0; }
      var slot := indexes[place.value.0];
      if slot == NO_SLOT { return 0; }
      cell := blocks[slot][place.value.1];
    }

    method MarkSlotDirty(slot: nat)
      requires MaskMatches() && slot < |blocks|
      modifies this`dirty, this`dirtySlots
      ensures MaskMatches()
      ensures dirtySlots == Marked(old(dirtySlots), slot)
    {
      if !dirty[slot] {
        dirty := dirty[slot := true];
        dirtySlots := dirtySlots + [slot];
      }
    }

    method SetCell(x: int, y: int, cell: byte)
      requires Valid()
      modifies this
      ensures Valid()
      ensures Model() == MapModel.SetCell(old(Model()), x, y, cell)
    {
      SetCellValid(Model(), x, y, cell);
      var place := Locate(x, y);
      if place.None? { return; }
      var (id, k) := place.value;
      var slot: nat;
      if indexes[id] != NO_SLOT {
        slot := indexes[id];
      } else {
        SlotAvailable(Model(), id);
        slot := |blocks|;
        blocks := blocks + [EmptyBlock()];
        backIndex := backIndex + [id];
        dirty := dirty + [false];
        indexes := indexes[id := slot];
        indexDirty := true;
      }
      blocks := blocks[slot := blocks[slot][k := cell]];
      MarkSlotDirty(slot);
    }

    /** The images of the dirty slots, in the order of the list. */
    method ImageSlots() returns (slots: seq<SlotImage>)
      requires Valid()
      ensures slots == Images(Model(), dirtySlots)
    {
      slots := [];
      for i := 0 to |dirtySlots|
        invariant slots == Images(Model(), dirtySlots)[..i]
      {
        slots := slots + [SlotImage(dirtySlots[i], blocks[dirtySlots[i]])];
      }
    }

    /** Every listed slot is unmarked, and no other is marked. */
    method ClearMarks()
      requires Valid()
      modifies this`dirty
      ensures |dirty| == |blocks| && forall s: nat :: s < |dirty| ==> !dirty[s]
    {
      for i := 0 to |dirtySlots|
        invariant |dirty| == |blocks|
        invariant forall s: nat :: s < |dirty| ==> (dirty[s] <==> s in dirtySlots[i..])
      {
        assert dirtySlots[i..] == [dirtySlots[i]] + dirtySlots[i + 1..];
        dirty := dirty[dirtySlots[i] := false];
      }
    }

    method TakeFlushBatch() returns (batch: Option<Batch>)
      requires Valid()
      modifies this
      ensures Valid()
      ensures Model() == Taken(old(Model()))
      ensures batch == if old(Model().IsDirty()) then Some(BatchOf(old(Model()))) else None
    {
      ghost var before := Model();
      if !(needsHeader || indexDirty || dirtySlots != []) {
        return None;
      }
      var slots := ImageSlots();
      batch := Some(Batch(nextFlushGeneration,
                          if needsHeader then Some((width, height)) else None,
                          if indexDirty then Some(indexes) else None,
                          |indexes|, slots));
      ClearMarks();
      nextFlushGeneration := nextFlushGeneration + 1;
      needsHeader := false;
      indexDirty := false;
      dirtySlots := [];
      TakenValid(before);
    }

    /** The loop of `restore_flush_batch`. */
    method MarkAll(slots: seq<SlotImage>)
      requires MaskMatches() && forall i :: 0 <= i < |slots| ==> slots[i].slot < |blocks|
      modifies this`dirty, this`dirtySlots
      ensures MaskMatches()
      ensures dirtySlots == MarkedAll(old(dirtySlots), slots)
    {
      for i := 0 to |slots|
        invariant MaskMatches()
        invariant MarkedAll(dirtySlots, slots[i..]) == MarkedAll(old(dirtySlots), slots)
      {
        assert slots[i..][1..] == slots[i + 1..];
        MarkSlotDirty(slots[i].slot);
      }
    }

    method RestoreFlushBatch(batch: Batch)
      requires Valid() && FlightAgrees(Model(), batch)
      modifies this
      ensures Valid()
      ensures Model() == Restored(old(Model()), batch)
    {
      RestoredValid(Model(), batch);
      needsHeader := needsHeader || batch.header.Some?;
      indexDirty := indexDirty || batch.indexes.Some?;
      MarkAll(batch.slots);
    }

    /** `save`: write what is dirty; on any failure put every mark back. A success leaves the map
        clean and the file starting with what it serializes to; a failure leaves the cells alone
        and the pair of map and file as safe to retry as before. */
    method Save(file: File) returns (ok: bool)
      requires Valid() && Covered(System(Model(), file.bytes, None))
      modifies this, file
      ensures Valid() && Covered(System(Model(), file.bytes, None))
      ensures indexes == old(indexes) && blocks == old(blocks) && width == old(width) && height == old(height)
      ensures ok ==> !Model().IsDirty() && Serialize(Model()) <= file.bytes
      ensures !ok ==> old(Model().IsDirty()) && Model().IsDirty()
      ensures ok <== old(Size(Writes(BatchOf(Model())))) <= old(file.room)
    {
      ghost var s, room := System(Model(), file.bytes, None), file.room;
      var batch := TakeFlushBatch();
      if batch.None? {
        CleanMeansSaved(s);
        return true;
      }
      ok := WriteTo(batch.value, file);
      if ok {
        SavedSafely(s, room);
      } else {
        FailedSafely(s, room);
        RestoreFlushBatch(batch.value);
      }
    }

    /** `deserialize`: the same outcome as `Decode`, error for error and field for field. */
    static method Deserialize(bytes: seq<byte>) returns (r: Result<MapStore, MapError>)
      ensures r.Failure? ==> Decode(bytes) == Failure(r.error)
      ensures r.Success? ==> fresh(r.value) && r.value.MaskMatches() && Decode(bytes) == Success(r.value.Model())
    {
      if |bytes| < HEADER_BYTES { return Failure(ShortHeader); }
      var width, height := FromBytes(bytes[0..4]), FromBytes(bytes[4..8]);
      if width <= 0 || height <= 0 { return Failure(BadDimensions); }
      if width / BLOCK_SIZE <= 0 || height / BLOCK_SIZE <= 0 { return Failure(SmallerThanBlock); }
      var store := new MapStore(width, height);
      assert Decode(bytes) == DecodeBody(bytes, width, height, |store.indexes|);
      var error := FillFrom(store, bytes);
      r := if error.Some? then Failure(error.value) else Success(store);
    }
  }

  /** The part of `deserialize` that follows the header. */
  method FillFrom(store: MapStore, bytes: seq<byte>) returns (error: Option<MapError>)
    requires store.nextFlushGeneration == 0
    modifies store
    ensures var result := DecodeBody(bytes, old(store.width), old(store.height), old(|store.indexes|));
            if error.Some? then result == Failure(error.value)
            else store.MaskMatches() && result == Success(store.Model())
  {
    ghost var g := |store.indexes|;
    var idxEnd := HEADER_BYTES + 4 * |store.indexes|;
    if |bytes| < idxEnd { return Some(TruncatedTable); }
    var slots := ReadTable(store, bytes);
    assert store.indexes == Entries(bytes, HEADER_BYTES, g);
    if |bytes| < idxEnd + slots * BLOCK_CELLS { return Some(TruncatedBlocks); }
    var failed, owners := ScanOwners(store.indexes, slots);
    if failed.Some? { return failed; }
    store.backIndex := owners;
    store.blocks := ReadBlocks(bytes, idxEnd, slots);
    store.dirty := seq(slots, _ => false);
    store.dirtySlots := [];
    store.indexDirty := false;
    store.needsHeader := false;
    error := None;
  }

  method ReadBlocks(bytes: seq<byte>, at: nat, slots: nat) returns (blocks: seq<Block>)
    requires at + BLOCK_CELLS * slots <= |bytes|
    ensures blocks == BlocksOf(bytes, at, slots)
  {
    blocks := [];
    for s := 0 to slots
      invariant blocks == BlocksOf(bytes, at, slots)[..s]
    {
      blocks := blocks + [BlocksOf(bytes, at, slots)[s]];
    }
  }

  lemma SavedSafely(s: System, room: nat)
    requires Covered(s) && s.flight.None? && s.live.IsDirty()
    requires Size(Writes(BatchOf(s.live))) <= room
    ensures var t := System(Taken(s.live), WritePrefix(s.disk, Writes(BatchOf(s.live)), room), None);
            Covered(t) && !t.live.IsDirty() && Serialize(t.live) <= t.disk
  {
    var s1 := Next(s, Take);
    TakeCovered(s);
    var s2 := Next(s1, Persist(room));
    PersistCovered(s1, room);
    AcknowledgeCovered(s2);
    CleanMeansSaved(Next(s2, Acknowledge));
  }

  lemma FailedSafely(s: System, room: nat)
    requires Covered(s) && s.flight.None? && s.live.IsDirty()
    requires Size(Writes(BatchOf(s.live))) > room
    ensures FlightAgrees(Taken(s.live), BatchOf(s.live))
    ensures var t := System(Restored(Taken(s.live), BatchOf(s.live)),
                            WritePrefix(s.disk, Writes(BatchOf(s.live)), room), None);
            Covered(t) && t.live.IsDirty()
  {
    hide Writes, Images, FlightAgrees;
    var s1 := Next(s, Take);
    TakeCovered(s);
    var s2 := Next(s1, Persist(room));
    PersistCovered(s1, room);
    FailCovered(s2);
    StillDirty(s.live);
  }

  lemma StillDirty(m: Map)
    requires m.Valid() && m.IsDirty()
    ensures Restored(Taken(m), BatchOf(m)).IsDirty()
  {
    MarkedAllExact([], Images(m, m.dirtySlots));
    if m.dirtySlots != [] {
      var images := Images(m, m.dirtySlots);
      assert images[0].slot == m.dirtySlots[0];
      assert m.dirtySlots[0] in MarkedAll([], images);
    }
  }

  /** The loop over the index table: entries as read and the number of slots they announce. */
  method ReadTable(store: MapStore, bytes: seq<byte>) returns (slots: nat)
    requires HEADER_BYTES + 4 * |store.indexes| <= |bytes|
    modifies store`indexes
    ensures store.indexes == Entries(bytes, HEADER_BYTES, old(|store.indexes|))
    ensures slots == SlotCount(store.indexes)
  {
    ghost var t := Entries(bytes, HEADER_BYTES, |store.indexes|);
    var indexSize := 0;
    for i := 0 to |store.indexes|
      invariant |store.indexes| == |t|
      invariant store.indexes[..i] == t[..i]
      invariant indexSize == SlotCount(t[..i])
    {
      var v := FromBytes(bytes[HEADER_BYTES + 4 * i..HEADER_BYTES + 4 * i + 4]);
      assert v == t[i];
      assert t[..i + 1][..i] == t[..i];
      store.indexes := store.indexes[i := v];
      if WrappingSucc(v) > indexSize {
        indexSize := WrappingSucc(v);
      }
    }
    assert t[..|t|] == t && store.indexes[..|t|] == store.indexes;
    slots := indexSize;
  }

  /** The loop that fills the inverse index, stopping at the first entry that names no slot. */
  method ScanOwners(t: seq<i32>, slots: nat) returns (failed: Option<MapError>, owners: seq<nat>)
    ensures failed == TableError(t, slots)
    ensures failed.None? ==> owners == Owners(t, slots)
  {
    owners := seq(slots, _ => 0);
    for i := 0 to |t|
      invariant TableError(t[..i], slots).None?
      invariant owners == Owners(t[..i], slots)
    {
      assert t[..i + 1][..i] == t[..i];
      var slot := t[i];
      if slot != NO_SLOT {
        if slot < 0 || slot >= slots {
          failed := Some(if slot < 0 then NegativeSlot else SlotOutOfRange);
          FirstErrorStays(t, slots, i + 1);
          return;
        }
        owners := owners[slot := i];
      }
    }
    assert t[..|t|] == t;
    failed := None;
  }

  lemma {:induction false} FirstErrorStays(t: seq<i32>, slots: nat, n: nat)
    requires n <= |t| && TableError(t[..n], slots).Some?
    ensures TableError(t, slots) == TableError(t[..n], slots)
  {
    if n == |t| {
      assert t[..n] == t;
    } else {
      var front := t[..|t| - 1];
      assert front[..n] == t[..n];
      FirstErrorStays(front, slots, n);
    }
  }

  /** Where a cell is kept: blocks of 32 by 32 in rows, cells in rows inside them; nowhere outside whole blocks. */
  lemma LocateExactly(s: MapStore, x: int, y: int)
    requires s.Valid()
    ensures s.Locate(x, y).Some? <==> 0 <= x < s.width / 32 * 32 && 0 <= y < s.height / 32 * 32
    ensures s.Locate(x, y).Some? ==>
              s.Locate(x, y).value == (x / 32 + y / 32 * (s.width / 32), x % 32 + 32 * (y % 32))
  {
  }
}
