/** Reading a `.map` file: the server's reader, its round trip with the writer, and the
    independent reader of the audit tool. */
module MapCodec {
  import opened Wrappers
  import opened LittleEndian
  import opened Sequences
  import opened Disk
  import opened MapModel
  import opened MapFlush

  datatype MapError =
    | ShortHeader
    | BadDimensions
    | SmallerThanBlock
    | TruncatedTable
    | TruncatedBlocks
    | NegativeSlot
    | SlotOutOfRange

  function New(width: i32, height: i32): Result<Map, MapError> {
    if width <= 0 || height <= 0 then Failure(BadDimensions)
    else if width / BLOCK_SIZE <= 0 || height / BLOCK_SIZE <= 0 then Failure(SmallerThanBlock)
    else Success(Fresh(width, height))
  }

  function Entries(bytes: seq<byte>, at: nat, n: nat): (t: seq<i32>)
    requires at + 4 * n <= |bytes|
    ensures |t| == n
    ensures forall i :: 0 <= i < n ==> t[i] == Entry(bytes, at + 4 * i)
  {
    seq(n, i requires 0 <= i < n => Entry(bytes, at + 4 * i))
  }

  function BlocksOf(bytes: seq<byte>, at: nat, n: nat): (t: seq<Block>)
    requires at + BLOCK_CELLS * n <= |bytes|
    ensures |t| == n
    ensures forall i :: 0 <= i < n ==> t[i] == bytes[at + i * BLOCK_CELLS..at + (i + 1) * BLOCK_CELLS]
  {
    seq(n, i requires 0 <= i < n => bytes[at + i * BLOCK_CELLS..at + (i + 1) * BLOCK_CELLS])
  }

  /** `v + 1` in 32 bits. */
  function WrappingSucc(v: i32): i32 {
    if v == MAX_I32 then -0x8000_0000 else v + 1
  }

  /** The number of slots a table announces: one more than its largest entry. */
  function SlotCount(t: seq<i32>): (n: nat)
    ensures n <= MAX_I32
  {
    if t == [] then 0
    else
      var rest, last := SlotCount(t[..|t| - 1]), WrappingSucc(t[|t| - 1]);
      if last > rest then last else rest
  }

  /** The first entry that names no slot of the file, in block order. */
  function TableError(t: seq<i32>, slots: nat): Option<MapError> {
    if t == [] then None
    else
      var earlier, last := TableError(t[..|t| - 1], slots), t[|t| - 1];
      if earlier.Some? then earlier
      else if last == NO_SLOT then None
      else if last < 0 then Some(NegativeSlot)
      else if last >= slots then Some(SlotOutOfRange)
      else None
  }

  /** The last block that names a slot; 0 when none does. */
  function Owner(t: seq<i32>, slot: nat): (b: nat)
    ensures b < |t| || b == 0
  {
    if t == [] then 0
    else if t[|t| - 1] == slot then |t| - 1
    else Owner(t[..|t| - 1], slot)
  }

  function Owners(t: seq<i32>, slots: nat): (r: seq<nat>)
    ensures |r| == slots
    ensures forall s :: 0 <= s < slots ==> r[s] == Owner(t, s)
  {
    seq(slots, s requires 0 <= s < slots => Owner(t, s))
  }

  /** The rest of a file whose header announces a table of g entries. */
  function DecodeBody(bytes: seq<byte>, width: i32, height: i32, g: nat): Result<Map, MapError> {
    if |bytes| < HEADER_BYTES + 4 * g then Failure(TruncatedTable)
    else
      var t := Entries(bytes, HEADER_BYTES, g);
      var slots := SlotCount(t);
      if |bytes| < HEADER_BYTES + 4 * g + slots * BLOCK_CELLS then Failure(TruncatedBlocks)
      else if TableError(t, slots).Some? then Failure(TableError(t, slots).value)
      else
        Success(Map(width, height, t, Owners(t, slots),
                    BlocksOf(bytes, HEADER_BYTES + 4 * g, slots), [], false, false, 0))
  }

  function Decode(bytes: seq<byte>): Result<Map, MapError> {
    if |bytes| < HEADER_BYTES then Failure(ShortHeader)
    else
      var width, height := Entry(bytes, 0), Entry(bytes, 4);
      var blank := New(width, height);
      if blank.Failure? then blank
      else DecodeBody(bytes, width, height, |blank.value.indexes|)
  }

  /** Open a map: a file of the right dimensions is read, anything else starts a fresh map. */
  function Open(file: Option<seq<byte>>, width: i32, height: i32): Result<Map, MapError> {
    if file.Some? && |file.value| >= HEADER_BYTES
       && Entry(file.value, 0) == width && Entry(file.value, 4) == height
    then Decode(file.value)
    else New(width, height)
  }

  // ---------------------------------------------------------------- what the table scans compute

  lemma {:induction false} SlotCountExact(t: seq<i32>)
    ensures forall i :: 0 <= i < |t| ==> t[i] == MAX_I32 || t[i] < SlotCount(t)
    ensures SlotCount(t) == 0 || exists i :: 0 <= i < |t| && t[i] == SlotCount(t) - 1
  {
    if t != [] {
      var front := t[..|t| - 1];
      SlotCountExact(front);
      forall i | 0 <= i < |t|
        ensures t[i] == MAX_I32 || t[i] < SlotCount(t)
      {
        assert i == |t| - 1 || t[i] == front[i];
      }
      if SlotCount(t) != 0 {
        if SlotCount(t) == SlotCount(front) {
          var i :| 0 <= i < |front| && front[i] == SlotCount(front) - 1;
          assert t[i] == SlotCount(t) - 1;
        } else {
          assert t[|t| - 1] == SlotCount(t) - 1;
        }
      }
    }
  }

  lemma {:induction false} TableErrorExact(t: seq<i32>, slots: nat)
    ensures TableError(t, slots).None? <==> forall i :: 0 <= i < |t| ==> t[i] == NO_SLOT || 0 <= t[i] < slots
  {
    if t != [] {
      var front := t[..|t| - 1];
      TableErrorExact(front, slots);
      assert forall i :: 0 <= i < |front| ==> front[i] == t[i];
    }
  }

  /** Where no other block names the slot, the scan finds its owner. */
  lemma {:induction false} OwnerUnique(t: seq<i32>, slot: nat, b: nat)
    requires b < |t| && t[b] == slot
    requires forall i :: 0 <= i < |t| && t[i] == slot ==> i == b
    ensures Owner(t, slot) == b
  {
    if b < |t| - 1 {
      OwnerUnique(t[..|t| - 1], slot, b);
    }
  }

  // ---------------------------------------------------------------- round trips

  /** The map as it is once loaded from its own bytes: the same content, nothing to save. */
  function Loaded(m: Map): Map {
    m.(dirtySlots := [], indexDirty := false, needsHeader := false, generation := 0)
  }

  lemma ValidSlotCount(m: Map)
    requires m.Valid()
    ensures SlotCount(m.indexes) == |m.blocks|
    ensures TableError(m.indexes, |m.blocks|).None?
    ensures Owners(m.indexes, |m.blocks|) == m.backIndex
  {
    SlotCountExact(m.indexes);
    TableErrorExact(m.indexes, |m.blocks|);
    if |m.blocks| > 0 {
      var last := m.backIndex[|m.blocks| - 1];
      assert m.indexes[last] == |m.blocks| - 1;
      SlotAtMost(m, last);
    }
    forall s | 0 <= s < |m.blocks|
      ensures Owners(m.indexes, |m.blocks|)[s] == m.backIndex[s]
    {
      OwnerUnique(m.indexes, s, m.backIndex[s]);
    }
  }

  /** A valid map has no slot at the top of the 32-bit range, so the count does not wrap. */
  lemma SlotAtMost(m: Map, b: nat)
    requires m.Valid() && b < |m.indexes|
    ensures m.indexes[b] < MAX_I32
  {
    NoDupFits(m.backIndex, Below(|m.indexes|));
  }

  lemma SerializedTable(m: Map, tail: seq<byte>)
    ensures Entries(Serialize(m) + tail, HEADER_BYTES, |m.indexes|) == m.indexes
  {
    var bytes, table := Serialize(m) + tail, TableBytes(m.indexes);
    forall i | 0 <= i < |m.indexes|
      ensures Entry(bytes, HEADER_BYTES + 4 * i) == m.indexes[i]
    {
      TableEntry(m.indexes, i);
      var k := 4 * i;
      assert bytes[HEADER_BYTES + k..HEADER_BYTES + k + 4] == table[k..k + 4];
    }
  }

  lemma SerializedBlocks(m: Map, tail: seq<byte>)
    ensures BlocksOf(Serialize(m) + tail, HEADER_BYTES + 4 * |m.indexes|, |m.blocks|) == m.blocks
  {
    var bytes, blocks := Serialize(m) + tail, BlockBytes(m.blocks);
    var at := HEADER_BYTES + 4 * |m.indexes|;
    forall i | 0 <= i < |m.blocks|
      ensures bytes[at + i * BLOCK_CELLS..at + (i + 1) * BLOCK_CELLS] == m.blocks[i]
    {
      BlockOfBytes(m.blocks, i);
      var k, l := i * BLOCK_CELLS, (i + 1) * BLOCK_CELLS;
      assert bytes[at + k..at + l] == blocks[k..l];
    }
  }

  /** Header, table and blocks are read back from serialized bytes, whatever follows them. */
  lemma SerializedHead(m: Map, tail: seq<byte>)
    ensures StartsWith(Serialize(m) + tail, m)
  {
    var bytes := Serialize(m) + tail;
    assert bytes[0..4] == ToBytes(m.width);
    assert bytes[4..8] == ToBytes(m.height);
    FromTo(m.width);
    FromTo(m.height);
    SerializedTable(m, tail);
    SerializedBlocks(m, tail);
  }

  /** Reading what was written gives the map back, clean, and ignores whatever follows. */
  lemma DecodeSerialized(m: Map, tail: seq<byte>)
    requires m.Valid()
    ensures Decode(Serialize(m) + tail) == Success(Loaded(m))
  {
    hide Serialize, Entries, BlocksOf, Owners, SlotCount, TableError;
    SerializedHead(m, tail);
    ValidSlotCount(m);
  }

  /** The bytes start with the header, table and blocks of m. */
  ghost predicate StartsWith(bytes: seq<byte>, m: Map) {
    var at := HEADER_BYTES + 4 * |m.indexes|;
    && at + BLOCK_CELLS * |m.blocks| <= |bytes|
    && m.width == Entry(bytes, 0) && m.height == Entry(bytes, 4)
    && m.indexes == Entries(bytes, HEADER_BYTES, |m.indexes|)
    && m.blocks == BlocksOf(bytes, at, |m.blocks|)
  }

  lemma StartsWithTable(bytes: seq<byte>, m: Map)
    requires StartsWith(bytes, m)
    ensures TableBytes(m.indexes) == bytes[8..HEADER_BYTES + 4 * |m.indexes|]
  {
    hide BlocksOf;
    var g, at := |m.indexes|, HEADER_BYTES + 4 * |m.indexes|;
    var table := bytes[8..at];
    forall i | 0 <= i < g
      ensures m.indexes[i] == Entry(table, 4 * i)
    {
      SliceOfSlice(bytes, 8, at, 4 * i, 4 * i + 4);
    }
    TableOfEntries(m.indexes, table);
  }

  lemma StartsWithBlocks(bytes: seq<byte>, m: Map)
    requires StartsWith(bytes, m)
    ensures Holds(bytes, HEADER_BYTES + 4 * |m.indexes|, BlockBytes(m.blocks))
  {
    hide BlockBytes, Entries;
    var at := HEADER_BYTES + 4 * |m.indexes|;
    forall i | 0 <= i < |m.blocks|
      ensures Holds(bytes, at + i * BLOCK_CELLS, m.blocks[i])
    {
    }
    BlocksHeld(bytes, at, m.blocks);
  }

  lemma StartsWithHeader(bytes: seq<byte>, m: Map)
    requires StartsWith(bytes, m)
    ensures HeaderBytes(m.width, m.height) == bytes[..8]
  {
    ToFrom(bytes[0..4]);
    ToFrom(bytes[4..8]);
  }

  lemma StartsWithSerialized(bytes: seq<byte>, m: Map)
    requires StartsWith(bytes, m)
    ensures Serialize(m) <= bytes
  {
    hide BlocksOf, Entries, BlockBytes, HeaderBytes, TableBytes;
    StartsWithHeader(bytes, m);
    StartsWithTable(bytes, m);
    StartsWithBlocks(bytes, m);
    var at, n := HEADER_BYTES + 4 * |m.indexes|, |Serialize(m)|;
    assert bytes[..n] == bytes[..8] + bytes[8..at] + bytes[at..n];
  }

  lemma DecodedBodyParts(bytes: seq<byte>, g: nat)
    requires |bytes| >= HEADER_BYTES
    requires DecodeBody(bytes, Entry(bytes, 0), Entry(bytes, 4), g).Success?
    ensures var m := DecodeBody(bytes, Entry(bytes, 0), Entry(bytes, 4), g).value;
            && StartsWith(bytes, m) && |m.indexes| == g
            && |m.blocks| == SlotCount(m.indexes) && TableError(m.indexes, |m.blocks|).None?
            && m.backIndex == Owners(m.indexes, |m.blocks|)
            && m.dirtySlots == [] && !m.IsDirty()
  {
    var m := DecodeBody(bytes, Entry(bytes, 0), Entry(bytes, 4), g).value;
    var t := Entries(bytes, HEADER_BYTES, g);
    assert m.indexes == t;
    assert m.blocks == BlocksOf(bytes, HEADER_BYTES + 4 * g, SlotCount(t));
  }

  /** What a successful read yields, field by field. */
  lemma DecodedParts(bytes: seq<byte>)
    requires Decode(bytes).Success?
    ensures var m := Decode(bytes).value;
            && StartsWith(bytes, m)
            && m.width > 0 && m.height > 0 && m.BlocksW() > 0 && m.BlocksH() > 0
            && |m.indexes| == m.BlocksW() * m.BlocksH()
            && |m.blocks| == SlotCount(m.indexes) && TableError(m.indexes, |m.blocks|).None?
            && m.backIndex == Owners(m.indexes, |m.blocks|)
            && m.dirtySlots == [] && !m.IsDirty()
  {
    hide Entries, BlocksOf, SlotCount, TableError, Owners;
    var blank := New(Entry(bytes, 0), Entry(bytes, 4)).value;
    DecodedBodyParts(bytes, |blank.indexes|);
  }

  /** Whatever file is accepted, writing the map read from it gives its first bytes back. */
  lemma SerializeDecoded(bytes: seq<byte>)
    requires Decode(bytes).Success?
    ensures Serialize(Decode(bytes).value) <= bytes
  {
    DecodedParts(bytes);
    StartsWithSerialized(bytes, Decode(bytes).value);
  }

  /** Exactly which files are accepted: header, table and every block the table names are there,
      and no entry is negative other than the absent mark. */
  ghost predicate Acceptable(bytes: seq<byte>) {
    && |bytes| >= HEADER_BYTES
    && New(Entry(bytes, 0), Entry(bytes, 4)).Success?
    && var g := |New(Entry(bytes, 0), Entry(bytes, 4)).value.indexes|;
       && |bytes| >= HEADER_BYTES + 4 * g
       && forall i :: 0 <= i < g ==> EntryBacked(|bytes| - HEADER_BYTES - 4 * g, Entries(bytes, HEADER_BYTES, g)[i])
  }

  /** An entry is the absent mark or a slot whose block lies within the given number of bytes. */
  predicate EntryBacked(room: int, v: i32) {
    v == NO_SLOT || (0 <= v < MAX_I32 && (v + 1) * BLOCK_CELLS <= room)
  }

  lemma TableBacked(t: seq<i32>, room: nat)
    ensures SlotCount(t) * BLOCK_CELLS <= room && TableError(t, SlotCount(t)).None?
       <==> forall i :: 0 <= i < |t| ==> EntryBacked(room, t[i])
  {
    SlotCountExact(t);
    TableErrorExact(t, SlotCount(t));
  }

  lemma Accepted(bytes: seq<byte>)
    ensures Decode(bytes).Success? <==> Acceptable(bytes)
  {
    if |bytes| >= HEADER_BYTES && New(Entry(bytes, 0), Entry(bytes, 4)).Success? {
      var g := |New(Entry(bytes, 0), Entry(bytes, 4)).value.indexes|;
      if |bytes| >= HEADER_BYTES + 4 * g {
        TableBacked(Entries(bytes, HEADER_BYTES, g), |bytes| - HEADER_BYTES - 4 * g);
      }
    }
  }

  ghost predicate Named(t: seq<i32>, slot: nat) {
    exists b :: 0 <= b < |t| && t[b] == slot
  }

  /** Blocks name slots at most once and leave no slot unnamed. */
  ghost predicate OneToOne(t: seq<i32>, slots: nat) {
    && (forall b, c :: 0 <= b < c < |t| && t[b] == t[c] ==> t[b] == NO_SLOT)
    && (forall s: nat :: s < slots ==> Named(t, s))
  }

  /** The table and the owners found by scanning it are inverse to each other. */
  ghost predicate OwnersInvert(t: seq<i32>, slots: nat) {
    && (forall b :: 0 <= b < |t| && t[b] >= 0 ==> Owner(t, t[b]) == b)
    && (forall s: nat :: s < slots ==> Owner(t, s) < |t| && t[Owner(t, s)] == s)
  }

  lemma OneToOneInverts(t: seq<i32>, slots: nat)
    requires OneToOne(t, slots)
    ensures OwnersInvert(t, slots)
  {
    forall b | 0 <= b < |t| && t[b] >= 0
      ensures Owner(t, t[b]) == b
    {
      OwnerUnique(t, t[b], b);
    }
    forall s: nat | s < slots
      ensures Owner(t, s) < |t| && t[Owner(t, s)] == s
    {
      assert Named(t, s);
      var b :| 0 <= b < |t| && t[b] == s;
      OwnerUnique(t, s, b);
    }
  }

  lemma InvertsOneToOne(t: seq<i32>, slots: nat)
    requires OwnersInvert(t, slots) && TableError(t, slots).None?
    ensures OneToOne(t, slots)
  {
    TableErrorExact(t, slots);
    forall s: nat | s < slots
      ensures Named(t, s)
    {
      assert t[Owner(t, s)] == s;
    }
  }

  /** An accepted file gives a consistent map exactly when its table is one-to-one: the reader
      itself lets two blocks share a slot and lets slots go unnamed. */
  lemma DecodedValid(bytes: seq<byte>)
    requires Decode(bytes).Success?
    ensures var m := Decode(bytes).value;
            m.Valid() <==> OneToOne(m.indexes, |m.blocks|) && |m.indexes| <= MAX_I32
  {
    DecodedParts(bytes);
    var m := Decode(bytes).value;
    TableErrorExact(m.indexes, |m.blocks|);
    if OneToOne(m.indexes, |m.blocks|) {
      OneToOneInverts(m.indexes, |m.blocks|);
    }
    if m.Valid() {
      ValidInverts(m);
      InvertsOneToOne(m.indexes, |m.blocks|);
    }
  }

  lemma ValidInverts(m: Map)
    requires m.Valid() && m.backIndex == Owners(m.indexes, |m.blocks|)
    ensures OwnersInvert(m.indexes, |m.blocks|)
  {
    forall b | 0 <= b < |m.indexes| && m.indexes[b] >= 0
      ensures Owner(m.indexes, m.indexes[b]) == b
    {
      assert m.backIndex[m.indexes[b]] == b;
    }
    forall s: nat | s < |m.blocks|
      ensures Owner(m.indexes, s) < |m.indexes| && m.indexes[Owner(m.indexes, s)] == s
    {
      assert m.indexes[m.backIndex[s]] == s;
    }
  }

  // ---------------------------------------------------------------- opening and flushing together

  lemma StartsWithCovered(m: Map, disk: seq<byte>)
    requires m.Valid() && StartsWith(disk, m)
    ensures Covered(System(m, disk, None))
  {
    hide HeaderBytes, TableBytes, Entries;
    StartsWithHeader(disk, m);
    StartsWithTable(disk, m);
    var at := HEADER_BYTES + 4 * |m.indexes|;
    assert disk[0..8] == disk[..8];
    forall slot | 0 <= slot < |m.blocks|
      ensures SlotOnDisk(m, disk, slot)
    {
      assert m.blocks[slot] == disk[at + slot * BLOCK_CELLS..at + (slot + 1) * BLOCK_CELLS];
    }
  }

  /** Every way `open` can hand out a consistent map leaves the file covered: a run of flushes may
      start there. */
  lemma OpenCovered(disk: seq<byte>, width: i32, height: i32)
    requires Open(Some(disk), width, height).Success? && Open(Some(disk), width, height).value.Valid()
    ensures Covered(System(Open(Some(disk), width, height).value, disk, None))
  {
    var m := Open(Some(disk), width, height).value;
    if |disk| >= HEADER_BYTES && Entry(disk, 0) == width && Entry(disk, 4) == height {
      DecodedParts(disk);
      StartsWithCovered(m, disk);
    }
  }

  /** Durability over whole runs: when a run ends clean, opening the file it leaves gives back
      every cell of the live map. */
  lemma ReopenAfterRun(s: System, es: seq<Event>)
    requires Covered(s)
    requires var t := Run(s, es); t.flight.None? && !t.live.IsDirty()
    ensures var t := Run(s, es);
            Open(Some(t.disk), t.live.width, t.live.height) == Success(Loaded(t.live))
  {
    RunCovered(s, es);
    var t := Run(s, es);
    CleanMeansSaved(t);
    var tail := t.disk[|Serialize(t.live)|..];
    assert t.disk == Serialize(t.live) + tail;
    SerializedHead(t.live, tail);
    DecodeSerialized(t.live, tail);
  }

  // ---------------------------------------------------------------- the audit tool's reader

  datatype Read = Outside | Byte(value: byte) | Crash

  /** `MapStore.get_cell` of the audit tool, on the bytes it loaded: `Crash` is Python's IndexError. */
  function AuditCell(bytes: seq<byte>, x: int, y: int): Read
    requires |bytes| >= HEADER_BYTES
  {
    var width, height := Entry(bytes, 0), Entry(bytes, 4);
    if x < 0 || y < 0 || x >= width || y >= height then Outside
    else
      var blocksW, blocksH := width / BLOCK_SIZE, height / BLOCK_SIZE;
      var grid := blocksW * blocksH;
      var idxEnd := HEADER_BYTES + grid * 4;
      var id := BlockId(blocksW, x, y);
      if !(0 <= id < grid) || |bytes| < idxEnd then Crash
      else
        var slot := Entry(bytes, HEADER_BYTES + 4 * id);
        if slot < 0 then Byte(0)
        else
          var off := idxEnd + slot * BLOCK_CELLS + CellIndex(x, y);
          if 0 <= off < |bytes| then Byte(bytes[off]) else Crash
  }

  ghost predicate AuditAgrees(m: Map, tail: seq<byte>)
    requires m.Valid()
  {
    forall x, y :: 0 <= x < m.width && 0 <= y < m.height ==>
      AuditCell(Serialize(m) + tail, x, y) == Byte(m.Cell(x, y))
  }

  lemma AuditReadsEntry(bytes: seq<byte>, width: i32, height: i32, x: int, y: int, id: nat)
    requires |bytes| >= HEADER_BYTES && Entry(bytes, 0) == width && Entry(bytes, 4) == height
    requires 0 <= x < width && 0 <= y < height
    requires id == BlockId(width / BLOCK_SIZE, x, y) < width / BLOCK_SIZE * (height / BLOCK_SIZE)
    requires |bytes| >= HEADER_BYTES + 4 * (width / BLOCK_SIZE * (height / BLOCK_SIZE))
    ensures var slot := Entry(bytes, HEADER_BYTES + 4 * id);
            var off := HEADER_BYTES + 4 * (width / BLOCK_SIZE * (height / BLOCK_SIZE))
                + slot * BLOCK_CELLS + CellIndex(x, y);
            AuditCell(bytes, x, y) ==
              if slot < 0 then Byte(0) else if 0 <= off < |bytes| then Byte(bytes[off]) else Crash
  {
  }

  lemma AuditReadsCell(m: Map, tail: seq<byte>, x: int, y: int)
    requires m.Valid() && m.InGrid(x, y)
    ensures AuditCell(Serialize(m) + tail, x, y) == Byte(m.Cell(x, y))
  {
    SerializedHead(m, tail);
    BlockIdBound(m.BlocksW(), m.BlocksH(), x, y);
    var bytes, id := Serialize(m) + tail, BlockId(m.BlocksW(), x, y);
    AuditReadsEntry(bytes, m.width, m.height, x, y, id);
    assert m.indexes[id] == Entry(bytes, HEADER_BYTES + 4 * id);
    if m.indexes[id] != NO_SLOT {
      SlotByte(m, tail, m.indexes[id], CellIndex(x, y));
    }
  }

  lemma SlotByte(m: Map, tail: seq<byte>, slot: nat, k: nat)
    requires slot < |m.blocks| && k < BLOCK_CELLS
    ensures var off := HEADER_BYTES + 4 * |m.indexes| + slot * BLOCK_CELLS + k;
            off < |Serialize(m)| && (Serialize(m) + tail)[off] == m.blocks[slot][k]
  {
    BlockOfBytes(m.blocks, slot);
    assert m.blocks[slot][k] == BlockBytes(m.blocks)[slot * BLOCK_CELLS + k];
  }

  /** Beyond the last whole block the audit tool's block number runs off the table in the last row. */
  lemma AuditCrashes(m: Map, tail: seq<byte>, x: int, y: int)
    requires m.Valid() && 0 <= x < m.width && 0 <= y < m.height
    requires BlockId(m.BlocksW(), x, y) >= |m.indexes|
    ensures AuditCell(Serialize(m) + tail, x, y) == Crash
  {
    SerializedHead(m, tail);
  }

  /** The two readers agree on every coordinate of a map exactly when both its dimensions are
      whole numbers of blocks. */
  lemma AuditAgreesExactly(m: Map, tail: seq<byte>)
    requires m.Valid()
    ensures AuditAgrees(m, tail) <==> m.width % BLOCK_SIZE == 0 && m.height % BLOCK_SIZE == 0
  {
    if m.width % BLOCK_SIZE == 0 && m.height % BLOCK_SIZE == 0 {
      forall x, y | 0 <= x < m.width && 0 <= y < m.height
        ensures AuditCell(Serialize(m) + tail, x, y) == Byte(m.Cell(x, y))
      {
        AuditReadsCell(m, tail, x, y);
      }
    } else if m.height % BLOCK_SIZE != 0 {
      var y := m.BlocksH() * BLOCK_SIZE;
      assert BlockId(m.BlocksW(), 0, y) == |m.indexes|;
      AuditCrashes(m, tail, 0, y);
    } else {
      var x, y := m.BlocksW() * BLOCK_SIZE, (m.BlocksH() - 1) * BLOCK_SIZE;
      assert x / BLOCK_SIZE == m.BlocksW() && y / BLOCK_SIZE == m.BlocksH() - 1;
      assert BlockId(m.BlocksW(), x, y) == m.BlocksW() + (m.BlocksH() - 1) * m.BlocksW();
      assert m.BlocksW() + (m.BlocksH() - 1) * m.BlocksW() == |m.indexes|;
      AuditCrashes(m, tail, x, y);
    }
  }
}
