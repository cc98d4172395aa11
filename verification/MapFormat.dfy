/** The `.map` file by its byte positions: what a file of this format says about every cell, which
    files are opened, which are refused and why, and where cell writes end up in the file. */
module MapFormat {
  import opened Wrappers
  import opened LittleEndian
  import opened Sequences
  import opened Disk
  import opened MapModel
  import opened MapFlush
  import opened MapCodec

  // ---------------------------------------------------------------- the format in numbers

  /** Whole blocks across and down, as the header announces them. */
  function BlocksAcross(bytes: seq<byte>): int
    requires |bytes| >= 8
  {
    NumberAt(bytes, 0) / 32
  }

  function BlocksDown(bytes: seq<byte>): int
    requires |bytes| >= 8
  {
    NumberAt(bytes, 4) / 32
  }

  /** The table has a number for each 32x32 block, row by row; -1 says the block is all zero. */
  function TableNumber(bytes: seq<byte>, column: int, row: int): int
    requires |bytes| >= 8 && 0 <= column < BlocksAcross(bytes) && 0 <= row
  {
    var at := 8 + 4 * (column + row * BlocksAcross(bytes));
    if 8 <= at && at + 4 <= |bytes| then NumberAt(bytes, at) else -1
  }

  /** The byte that belongs to a cell: blocks of 1024 bytes follow the table, each row by row. */
  function CellInFile(bytes: seq<byte>, x: int, y: int): byte
    requires |bytes| >= 8
  {
    var across, down := BlocksAcross(bytes), BlocksDown(bytes);
    if x < 0 || y < 0 || x >= 32 * across || y >= 32 * down then 0
    else
      var v := TableNumber(bytes, x / 32, y / 32);
      var at := 8 + 4 * (across * down) + 1024 * v + x % 32 + 32 * (y % 32);
      if v == -1 then 0 else if 0 <= at < |bytes| then bytes[at] else 0
  }

  /** The byte of a cell of a whole block, given what the table says about the block. */
  lemma CellOfBlock(bytes: seq<byte>, x: int, y: int, across: int, down: int)
    requires |bytes| >= 8 && across == BlocksAcross(bytes) && down == BlocksDown(bytes)
    requires 0 <= x < 32 * across && 0 <= y < 32 * down
    requires |bytes| >= 8 + 4 * (across * down)
    ensures 0 <= BlockId(across, x, y) < across * down
    ensures var v := NumberAt(bytes, 8 + 4 * BlockId(across, x, y));
            var at := 8 + 4 * (across * down) + 1024 * v + CellIndex(x, y);
            CellInFile(bytes, x, y) == if v != -1 && 0 <= at < |bytes| then bytes[at] else 0
  {
    hide NumberAt;
    BlockIdBound(across, down, x, y);
  }

  /** A file that starts with the header, table and blocks of a map says of every cell what the map says. */
  lemma StartsWithCells(bytes: seq<byte>, m: Map, x: int, y: int)
    requires m.Backed() && StartsWith(bytes, m)
    ensures CellInFile(bytes, x, y) == m.Cell(x, y)
  {
    hide NumberAt, Entries, BlocksOf, BlockId, CellIndex;
    EntryIsNumber(bytes, 0);
    EntryIsNumber(bytes, 4);
    if m.InGrid(x, y) {
      BlockIdBound(m.BlocksW(), m.BlocksH(), x, y);
      var id, k := BlockId(m.BlocksW(), x, y), CellIndex(x, y);
      assert m.indexes[id] == Entry(bytes, HEADER_BYTES + 4 * id);
      EntryIsNumber(bytes, 8 + 4 * id);
      CellOfBlock(bytes, x, y, m.BlocksW(), m.BlocksH());
      if m.indexes[id] != NO_SLOT {
        SlotCell(bytes, m, m.indexes[id], k);
      }
    } else {
      CellOutside(bytes, x, y);
    }
  }

  lemma CellOutside(bytes: seq<byte>, x: int, y: int)
    requires |bytes| >= 8
    requires !(0 <= x < 32 * BlocksAcross(bytes) && 0 <= y < 32 * BlocksDown(bytes))
    ensures CellInFile(bytes, x, y) == 0
  {
  }

  lemma SlotCell(bytes: seq<byte>, m: Map, slot: nat, k: nat)
    requires StartsWith(bytes, m) && slot < |m.blocks| && k < BLOCK_CELLS
    ensures var at := 8 + 4 * |m.indexes| + 1024 * slot + k;
            at < |bytes| && bytes[at] == m.blocks[slot][k]
  {
    hide Entries;
    var at := HEADER_BYTES + 4 * |m.indexes|;
    assert m.blocks[slot] == bytes[at + slot * BLOCK_CELLS..at + (slot + 1) * BLOCK_CELLS];
  }

  /** The file a map is written as: its length, its header and all its cells. */
  lemma SerializedCells(m: Map, tail: seq<byte>)
    requires m.Backed()
    ensures |Serialize(m)| == 8 + 4 * (m.width / 32 * (m.height / 32)) + 1024 * |m.blocks|
    ensures NumberAt(Serialize(m) + tail, 0) == m.width && NumberAt(Serialize(m) + tail, 4) == m.height
    ensures forall x, y :: CellInFile(Serialize(m) + tail, x, y) == m.Cell(x, y)
  {
    hide Serialize, CellInFile;
    var bytes := Serialize(m) + tail;
    SerializedHead(m, tail);
    EntryIsNumber(bytes, 0);
    EntryIsNumber(bytes, 4);
    forall x, y
      ensures CellInFile(bytes, x, y) == m.Cell(x, y)
    {
      StartsWithCells(bytes, m, x, y);
    }
  }

  // ---------------------------------------------------------------- which files are read

  /** The number of 32x32 blocks the header announces. */
  function Grid(bytes: seq<byte>): (n: int)
    requires |bytes| >= 8
    ensures NumberAt(bytes, 0) >= 32 && NumberAt(bytes, 4) >= 32 ==> n > 0
  {
    BlocksAcross(bytes) * BlocksDown(bytes)
  }

  /** The table is all there; its i-th number. */
  predicate TableThere(bytes: seq<byte>) {
    |bytes| >= 8 && NumberAt(bytes, 0) >= 32 && NumberAt(bytes, 4) >= 32 && |bytes| >= 8 + 4 * Grid(bytes)
  }

  function Named(bytes: seq<byte>, i: nat): int
    requires TableThere(bytes) && i < Grid(bytes)
  {
    NumberAt(bytes, 8 + 4 * i)
  }

  /** Some number of the table names a block that ends beyond the file. The largest number there is
      counts for none: one more than it wraps around. */
  ghost predicate BlockMissing(bytes: seq<byte>)
    requires TableThere(bytes)
  {
    exists i: nat :: i < Grid(bytes) && 0 <= Named(bytes, i) < 0x7FFF_FFFF
                     && 8 + 4 * Grid(bytes) + 1024 * (Named(bytes, i) + 1) > |bytes|
  }

  predicate BadNumber(v: int) {
    v < -1 || v == 0x7FFF_FFFF
  }

  /** The first bad number of the table is number i. */
  ghost predicate FirstBad(bytes: seq<byte>, i: nat)
    requires TableThere(bytes)
  {
    && i < Grid(bytes) && BadNumber(Named(bytes, i))
    && forall j: nat :: j < i ==> !BadNumber(Named(bytes, j))
  }

  lemma {:induction false} FirstError(t: seq<i32>, slots: nat)
    requires forall i :: 0 <= i < |t| ==> t[i] == 0x7FFF_FFFF || t[i] < slots
    requires slots <= 0x7FFF_FFFF
    ensures TableError(t, slots).None? ==> forall i :: 0 <= i < |t| ==> !BadNumber(t[i])
    ensures TableError(t, slots).Some? ==>
              exists i :: 0 <= i < |t| && BadNumber(t[i]) && (forall j :: 0 <= j < i ==> !BadNumber(t[j]))
                && TableError(t, slots).value == if t[i] < 0 then NegativeSlot else SlotOutOfRange
  {
    if t != [] {
      var front, last := t[..|t| - 1], |t| - 1;
      FirstError(front, slots);
      if TableError(front, slots).Some? {
        var i :| 0 <= i < |front| && BadNumber(front[i]) && (forall j :: 0 <= j < i ==> !BadNumber(front[j]))
          && TableError(front, slots).value == if front[i] < 0 then NegativeSlot else SlotOutOfRange;
        assert t[i] == front[i];
        assert forall j :: 0 <= j < i ==> t[j] == front[j];
      } else {
        forall j | 0 <= j < last
          ensures !BadNumber(t[j])
        {
          assert t[j] == front[j];
        }
        if TableError(t, slots).Some? {
          assert BadNumber(t[last]);
        }
      }
    }
  }

  /** What is wrong with a file that is refused, in the order in which the reader looks. */
  lemma DecodeErrors(bytes: seq<byte>)
    ensures Decode(bytes) == Failure(ShortHeader) <==> |bytes| < 8
    ensures |bytes| >= 8 ==>
              (Decode(bytes) == Failure(BadDimensions) <==> NumberAt(bytes, 0) <= 0 || NumberAt(bytes, 4) <= 0)
    ensures |bytes| >= 8 && NumberAt(bytes, 0) > 0 && NumberAt(bytes, 4) > 0 ==>
              (Decode(bytes) == Failure(SmallerThanBlock) <==> NumberAt(bytes, 0) < 32 || NumberAt(bytes, 4) < 32)
    ensures |bytes| >= 8 && NumberAt(bytes, 0) >= 32 && NumberAt(bytes, 4) >= 32 ==>
              (Decode(bytes) == Failure(TruncatedTable) <==> !TableThere(bytes))
    ensures TableThere(bytes) ==> (Decode(bytes) == Failure(TruncatedBlocks) <==> BlockMissing(bytes))
    ensures TableThere(bytes) && !BlockMissing(bytes) ==>
              && (Decode(bytes) == Failure(NegativeSlot) <==> exists i :: FirstBad(bytes, i) && Named(bytes, i) < 0)
              && (Decode(bytes) == Failure(SlotOutOfRange) <==> exists i :: FirstBad(bytes, i) && Named(bytes, i) > 0)
              && (Decode(bytes).Success? <==> forall i: nat :: i < Grid(bytes) ==> !BadNumber(Named(bytes, i)))
  {
    hide Decode, NumberAt, BlockMissing, FirstBad, BadNumber;
    if |bytes| >= 8 {
      HeaderErrors(bytes);
    } else {
      assert Decode(bytes) == Failure(ShortHeader) by {
        NoHeader(bytes);
      }
    }
    if TableThere(bytes) {
      TableErrors(bytes);
    }
  }

  lemma NoHeader(bytes: seq<byte>)
    requires |bytes| < 8
    ensures Decode(bytes) == Failure(ShortHeader)
  {
  }

  lemma HeaderErrors(bytes: seq<byte>)
    requires |bytes| >= 8
    ensures Decode(bytes) != Failure(ShortHeader)
    ensures Decode(bytes) == Failure(BadDimensions) <==> NumberAt(bytes, 0) <= 0 || NumberAt(bytes, 4) <= 0
    ensures NumberAt(bytes, 0) > 0 && NumberAt(bytes, 4) > 0 ==>
              (Decode(bytes) == Failure(SmallerThanBlock) <==> NumberAt(bytes, 0) < 32 || NumberAt(bytes, 4) < 32)
    ensures NumberAt(bytes, 0) >= 32 && NumberAt(bytes, 4) >= 32 ==>
              (Decode(bytes) == Failure(TruncatedTable) <==> !TableThere(bytes))
  {
    hide NumberAt, SlotCount, Entries, BlocksOf, Owners;
    EntryIsNumber(bytes, 0);
    EntryIsNumber(bytes, 4);
    forall t: seq<i32>, slots
      ensures TableError(t, slots).Some? ==> TableError(t, slots).value in {NegativeSlot, SlotOutOfRange}
    {
      TableErrorKinds(t, slots);
    }
  }

  lemma {:induction false} TableErrorKinds(t: seq<i32>, slots: nat)
    ensures TableError(t, slots).Some? ==> TableError(t, slots).value in {NegativeSlot, SlotOutOfRange}
  {
    if t != [] {
      TableErrorKinds(t[..|t| - 1], slots);
    }
  }

  lemma TableErrors(bytes: seq<byte>)
    requires TableThere(bytes)
    ensures Decode(bytes) == Failure(TruncatedBlocks) <==> BlockMissing(bytes)
    ensures !BlockMissing(bytes) ==>
              && (Decode(bytes) == Failure(NegativeSlot) <==> exists i :: FirstBad(bytes, i) && Named(bytes, i) < 0)
              && (Decode(bytes) == Failure(SlotOutOfRange) <==> exists i :: FirstBad(bytes, i) && Named(bytes, i) > 0)
              && (Decode(bytes).Success? <==> forall i: nat :: i < Grid(bytes) ==> !BadNumber(Named(bytes, i)))
  {
    hide TableError, SlotCount, BlocksOf, Owners, Decode, Grid, NumberAt;
    var t := Entries(bytes, 8, Grid(bytes));
    TableNames(bytes, t);
    SlotCountExact(t);
    FirstError(t, SlotCount(t));
    DecodeOfTable(bytes, t);
    MissingExactly(bytes, t);
    if !BlockMissing(bytes) && TableError(t, SlotCount(t)).Some? {
      var i := BadFirst(bytes, t);
    }
  }

  lemma TableNames(bytes: seq<byte>, t: seq<i32>)
    requires TableThere(bytes) && t == Entries(bytes, 8, Grid(bytes))
    ensures |t| == Grid(bytes) && forall i :: 0 <= i < |t| ==> t[i] == Named(bytes, i)
  {
    hide Grid, NumberAt;
    forall i | 0 <= i < |t|
      ensures t[i] == Named(bytes, i)
    {
      EntryIsNumber(bytes, 8 + 4 * i);
    }
  }

  lemma MissingExactly(bytes: seq<byte>, t: seq<i32>)
    requires TableThere(bytes) && |t| == Grid(bytes) && forall i :: 0 <= i < |t| ==> t[i] == Named(bytes, i)
    ensures |bytes| < 8 + 4 * Grid(bytes) + SlotCount(t) * 1024 <==> BlockMissing(bytes)
  {
    hide SlotCount, Grid, NumberAt;
    SlotCountExact(t);
    if |bytes| < 8 + 4 * Grid(bytes) + SlotCount(t) * 1024 {
      var i :| 0 <= i < |t| && t[i] == SlotCount(t) - 1;
      assert 0 <= Named(bytes, i) < 0x7FFF_FFFF;
    }
  }

  lemma BadFirst(bytes: seq<byte>, t: seq<i32>) returns (i: nat)
    requires TableThere(bytes) && |t| == Grid(bytes) && forall i :: 0 <= i < |t| ==> t[i] == Named(bytes, i)
    requires TableError(t, SlotCount(t)).Some?
    ensures FirstBad(bytes, i)
    ensures TableError(t, SlotCount(t)).value == if Named(bytes, i) < 0 then NegativeSlot else SlotOutOfRange
    ensures forall j: nat :: FirstBad(bytes, j) ==> j == i
  {
    hide SlotCount, Grid, NumberAt, TableError;
    SlotCountExact(t);
    FirstError(t, SlotCount(t));
    i :| 0 <= i < |t| && BadNumber(t[i]) && (forall j :: 0 <= j < i ==> !BadNumber(t[j]))
      && TableError(t, SlotCount(t)).value == if t[i] < 0 then NegativeSlot else SlotOutOfRange;
    assert FirstBad(bytes, i);
  }

  lemma DecodeOfTable(bytes: seq<byte>, t: seq<i32>)
    requires TableThere(bytes) && t == Entries(bytes, 8, Grid(bytes))
    ensures var d := Decode(bytes);
            if |bytes| < 8 + 4 * Grid(bytes) + SlotCount(t) * 1024 then d == Failure(TruncatedBlocks)
            else if TableError(t, SlotCount(t)).Some? then d == Failure(TableError(t, SlotCount(t)).value)
            else d.Success?
  {
    hide TableError, SlotCount, BlocksOf, Owners, Entries;
    EntryIsNumber(bytes, 0);
    EntryIsNumber(bytes, 4);
  }

  // ---------------------------------------------------------------- opening

  /** The file is there and its header holds exactly these dimensions. */
  predicate HasDimensions(file: Option<seq<byte>>, width: int, height: int) {
    file.Some? && |file.value| >= 8 && NumberAt(file.value, 0) == width && NumberAt(file.value, 4) == height
  }

  /** Whatever the file, a map that opens has the dimensions asked for. It has the cells of the
      file, and nothing to save, if the file has these dimensions. Otherwise all cells are 0, and
      header and table are to be written. */
  lemma OpenExactly(file: Option<seq<byte>>, width: i32, height: i32)
    ensures HasDimensions(file, width, height) ==>
              (Open(file, width, height).Success? <==> Decode(file.value).Success?)
    ensures !HasDimensions(file, width, height) ==>
              (Open(file, width, height).Success? <==> width >= 32 && height >= 32)
    ensures Open(file, width, height).Success? ==>
              var m := Open(file, width, height).value;
              && (m.width, m.height) == (width, height) && m.Backed()
              && m.dirtySlots == [] && m.generation == 0
              && m.needsHeader == m.indexDirty == !HasDimensions(file, width, height)
              && forall x, y :: m.Cell(x, y) ==
                   if HasDimensions(file, width, height) then CellInFile(file.value, x, y) else 0
  {
    hide CellInFile, Decode;
    if file.Some? && |file.value| >= 8 {
      EntryIsNumber(file.value, 0);
      EntryIsNumber(file.value, 4);
    }
    if Open(file, width, height).Success? {
      var m := Open(file, width, height).value;
      if HasDimensions(file, width, height) {
        DecodedCells(file.value);
      } else {
        assert m == Fresh(width, height);
        NothingIn(width, height);
      }
    }
  }

  lemma DecodedCells(bytes: seq<byte>)
    requires Decode(bytes).Success?
    ensures |bytes| >= 8
    ensures var m := Decode(bytes).value;
            && m.width == NumberAt(bytes, 0) && m.height == NumberAt(bytes, 4) && m.Backed()
            && m.dirtySlots == [] && m.generation == 0 && !m.needsHeader && !m.indexDirty
            && forall x, y :: m.Cell(x, y) == CellInFile(bytes, x, y)
  {
    hide CellInFile, Entries, BlocksOf;
    DecodedParts(bytes);
    var m := Decode(bytes).value;
    TableErrorExact(m.indexes, |m.blocks|);
    EntryIsNumber(bytes, 0);
    EntryIsNumber(bytes, 4);
    forall x, y
      ensures m.Cell(x, y) == CellInFile(bytes, x, y)
    {
      StartsWithCells(bytes, m, x, y);
    }
  }

  lemma NothingIn(width: i32, height: i32)
    requires width >= 32 && height >= 32
    ensures var m := Fresh(width, height);
            m.Backed() && forall x, y :: m.Cell(x, y) == 0
  {
    var m := Fresh(width, height);
    forall x, y
      ensures m.Cell(x, y) == 0
    {
      if m.InGrid(x, y) {
        BlockIdBound(m.BlocksW(), m.BlocksH(), x, y);
      }
    }
  }

  /** The file of a map gives that map back under its own dimensions and under no others. */
  lemma OpenOwnFile(m: Map, tail: seq<byte>, width: i32, height: i32)
    requires m.Valid()
    ensures Open(Some(Serialize(m) + tail), width, height) == Success(Loaded(m))
       <==> (width, height) == (m.width, m.height)
  {
    hide Serialize, CellInFile, Decode;
    var bytes := Serialize(m) + tail;
    DecodeSerialized(m, tail);
    SerializedCells(m, tail);
    EntryIsNumber(bytes, 0);
    EntryIsNumber(bytes, 4);
    OpenExactly(Some(bytes), width, height);
  }

  // ---------------------------------------------------------------- what runs do to cells

  /** What was last written to a cell, or what was there before. */
  function LastWritten(es: seq<Event>, x: int, y: int, before: byte): byte
    decreases es
  {
    if es == [] then before
    else
      var e := es[|es| - 1];
      if e.Cell? && e.x == x && e.y == y then e.cell else LastWritten(es[..|es| - 1], x, y, before)
  }

  /** Cells change by cell writes only, whatever is taken, written, retried, acknowledged or
      reported as failed in between. */
  lemma NextCells(s: System, e: Event, x: int, y: int)
    requires Covered(s)
    ensures var m := Next(s, e).live;
            && m.Valid() && m.width == s.live.width && m.height == s.live.height
            && m.Cell(x, y) == if e.Cell? && (e.x, e.y) == (x, y) && s.live.InGrid(x, y) then e.cell
                               else s.live.Cell(x, y)
  {
    hide MarkedAll, FlightAgrees, SlotCarried, SlotOnDisk, Writes, WritePrefix, Size;
    NextCovered(s, e);
    if e.Cell? {
      SetThenGet(s.live, e.x, e.y, e.cell, x, y);
    }
  }

  /** Batches are numbered one after the other, as they are taken. */
  lemma NextNumber(s: System, e: Event)
    requires Covered(s)
    ensures e.Take? && s.flight.None? && s.live.IsDirty() ==>
              && Next(s, e).flight.Some? && Next(s, e).flight.value.batch.generation == s.live.generation
              && Next(s, e).live.generation == s.live.generation + 1
    ensures !(e.Take? && s.flight.None? && s.live.IsDirty()) ==> Next(s, e).live.generation == s.live.generation
  {
    hide MarkedAll, FlightAgrees, SlotCarried, SlotOnDisk, Writes, WritePrefix, Size;
  }

  lemma {:induction false} RunAppend(s: System, es: seq<Event>, e: Event)
    requires Covered(s)
    ensures Covered(Run(s, es)) && Run(s, es + [e]) == Next(Run(s, es), e)
    decreases es
  {
    hide Next, HeaderCarried, TableCarried, FlightAgrees, SlotCarried, SlotOnDisk, Holds;
    RunCovered(s, es);
    if es == [] {
      RunStep(s, e, []);
      assert [] + [e] == [e] + [];
    } else {
      NextCovered(s, es[0]);
      RunAppend(Next(s, es[0]), es[1..], e);
      assert (es + [e])[1..] == es[1..] + [e];
    }
  }

  /** After any run each cell of the live map reads as last written, or as before the run. */
  lemma {:induction false} RunCells(s: System, es: seq<Event>, x: int, y: int)
    requires Covered(s)
    ensures var m := Run(s, es).live;
            && m.Valid() && m.width == s.live.width && m.height == s.live.height
            && m.Cell(x, y) == if 0 <= x < s.live.width / 32 * 32 && 0 <= y < s.live.height / 32 * 32
                               then LastWritten(es, x, y, s.live.Cell(x, y)) else 0
    decreases |es|
  {
    hide Next, FlightAgrees, SlotCarried, SlotOnDisk;
    if es != [] {
      var front, e := es[..|es| - 1], es[|es| - 1];
      assert es == front + [e];
      RunAppend(s, front, e);
      RunCells(s, front, x, y);
      NextCells(Run(s, front), e, x, y);
    }
  }

  /** Opening a file, here as a consistent map, and a run from there. */
  ghost function OpenAndRun(disk: seq<byte>, width: i32, height: i32, es: seq<Event>): System
    requires Open(Some(disk), width, height).Success? && Open(Some(disk), width, height).value.Valid()
  {
    OpenCovered(disk, width, height);
    Run(System(Open(Some(disk), width, height).value, disk, None), es)
  }

  /** Durability down to the byte: from whatever is opened as a consistent map, after any run that
      ends clean, each cell's byte in the file is what the run last wrote there, or what the opened
      map had. Opening the file again shows the same. */
  lemma DurableWrites(disk: seq<byte>, width: i32, height: i32, es: seq<Event>, x: int, y: int)
    requires Open(Some(disk), width, height).Success? && Open(Some(disk), width, height).value.Valid()
    requires var t := OpenAndRun(disk, width, height, es); t.flight.None? && !t.live.IsDirty()
    ensures var t := OpenAndRun(disk, width, height, es);
            var before := if HasDimensions(Some(disk), width, height) then CellInFile(disk, x, y) else 0;
            var after := if 0 <= x < width / 32 * 32 && 0 <= y < height / 32 * 32
                         then LastWritten(es, x, y, before) else 0;
            && HasDimensions(Some(t.disk), width, height)
            && CellInFile(t.disk, x, y) == after
            && Open(Some(t.disk), width, height).Success?
            && Open(Some(t.disk), width, height).value.Backed()
            && Open(Some(t.disk), width, height).value.Cell(x, y) == after
  {
    hide Run, CellInFile, Covered, LastWritten, Open, Serialize;
    OpenCovered(disk, width, height);
    var s := System(Open(Some(disk), width, height).value, disk, None);
    OpenExactly(Some(disk), width, height);
    RunCells(s, es, x, y);
    var t := Run(s, es);
    RunThenClean(s, es);
    ReopenAfterRun(s, es);
    var tail := t.disk[|Serialize(t.live)|..];
    assert t.disk == Serialize(t.live) + tail;
    SerializedCells(t.live, tail);
  }

  // ---------------------------------------------------------------- the order of writing

  /** A file that kept, from `at` on, everything it had. */
  ghost predicate KeptFrom(at: nat, before: seq<byte>, after: seq<byte>) {
    |after| >= |before| && forall k :: at <= k < |before| ==> after[k] == before[k]
  }

  lemma {:induction false} PrefixOfTwo(disk: seq<byte>, a: seq<Write>, b: seq<Write>, n: nat)
    ensures WritePrefix(disk, a + b, n) ==
            if n <= Size(a) then WritePrefix(disk, a, n)
            else WritePrefix(WritePrefix(disk, a, Size(a)), b, n - Size(a))
    decreases a
  {
    hide WriteAt;
    if a == [] {
      assert a + b == b;
      NothingWritten(disk, b);
    } else {
      assert (a + b)[1..] == a[1..] + b;
      var first := WriteAt(disk, a[0].at, a[0].data);
      assert a[0].data[..|a[0].data|] == a[0].data;
      NothingWritten(first, a[1..]);
      if n > |a[0].data| {
        PrefixOfTwo(first, a[1..], b, n - |a[0].data|);
      }
    }
  }

  lemma NothingWritten(disk: seq<byte>, ws: seq<Write>)
    ensures WritePrefix(disk, ws, 0) == disk
  {
  }

  function HeadWrites(b: Batch): seq<Write> {
    HeaderWrites(b) + TableWrites(b)
  }

  function HeadSize(b: Batch): int {
    (if b.header.Some? then 8 else 0) + (if b.indexes.Some? then 4 * b.indexLen else 0)
  }

  lemma HeadWritesSize(b: Batch)
    requires BatchShape(b)
    ensures Size(HeadWrites(b)) == HeadSize(b)
    ensures forall w :: w in HeadWrites(b) ==> w.data != [] && w.at + |w.data| <= 8 + 4 * b.indexLen
    ensures PairwiseDisjoint(HeadWrites(b))
  {
    var header, table := HeaderWrites(b), TableWrites(b);
    if header == [] {
      assert header + table == table;
    } else {
      assert (header + table)[1..] == table;
    }
    if table != [] {
      assert table[1..] == [];
      assert Size(table) == |table[0].data|;
    }
  }

  /** Header and table go out before any block: until they are all out the blocks in the file stay
      as they were, and from then on the file has them. */
  lemma HeadFirst(disk: seq<byte>, b: Batch, n: nat)
    requires BatchShape(b)
    ensures var after := WritePrefix(disk, Writes(b), n);
            && (n <= HeadSize(b) ==> KeptFrom(8 + 4 * b.indexLen, disk, after))
            && (n >= HeadSize(b) && b.header.Some? ==>
                  |after| >= 8 && NumberAt(after, 0) == b.header.value.0 && NumberAt(after, 4) == b.header.value.1)
            && (n >= HeadSize(b) && b.indexes.Some? ==>
                  && |after| >= 8 + 4 * b.indexLen
                  && forall i :: 0 <= i < b.indexLen ==> NumberAt(after, 8 + 4 * i) == b.indexes.value[i])
  {
    hide WriteAt, Size, NumberAt;
    var ws, slots := HeadWrites(b), SlotWrites(b.indexLen, b.slots);
    var after := WritePrefix(disk, Writes(b), n);
    HeadWritesSize(b);
    PrefixOfTwo(disk, ws, slots, n);
    if n <= HeadSize(b) {
      BlocksLater(disk, b, n);
    }
    if n >= HeadSize(b) {
      forall w | w in ws
        ensures Holds(after, w.at, w.data)
      {
        HeadHeld(disk, b, n, w);
      }
      if b.header.Some? {
        HeaderNumbers(after, b.header.value.0, b.header.value.1);
      }
      if b.indexes.Some? {
        assert Write(8, TableBytes(b.indexes.value)) in ws;
        TableNumbers(after, b.indexes.value);
      }
    }
  }

  lemma BlocksLater(disk: seq<byte>, b: Batch, n: nat)
    requires BatchShape(b) && n <= HeadSize(b)
    ensures KeptFrom(8 + 4 * b.indexLen, disk, WritePrefix(disk, Writes(b), n))
  {
    hide WriteAt, Size, HeaderWrites, TableWrites;
    var ws, slots := HeadWrites(b), SlotWrites(b.indexLen, b.slots);
    var after := WritePrefix(disk, Writes(b), n);
    HeadWritesSize(b);
    assert Writes(b) == ws + slots;
    PrefixOfTwo(disk, ws, slots, n);
    NeverShorter(disk, ws, n);
    forall k | 8 + 4 * b.indexLen <= k < |disk|
      ensures after[k] == disk[k]
    {
      WritePrefixFrame(disk, ws, n, Write(k, [disk[k]]));
      assert after[k..k + 1][0] == after[k];
    }
  }

  lemma {:induction false} NeverShorter(disk: seq<byte>, ws: seq<Write>, n: nat)
    ensures |WritePrefix(disk, ws, n)| >= |disk|
    decreases ws
  {
    if ws != [] && n > |ws[0].data| {
      NeverShorter(WriteAt(disk, ws[0].at, ws[0].data), ws[1..], n - |ws[0].data|);
    }
  }

  lemma HeadHeld(disk: seq<byte>, b: Batch, n: nat, w: Write)
    requires BatchShape(b) && n >= HeadSize(b) && w in HeadWrites(b)
    ensures Holds(WritePrefix(disk, Writes(b), n), w.at, w.data)
  {
    hide WritePrefix, Size;
    var ws, slots := HeadWrites(b), SlotWrites(b.indexLen, b.slots);
    HeadWritesSize(b);
    assert Writes(b) == ws + slots;
    PrefixOfTwo(disk, ws, slots, n);
    WriteAllHolds(disk, ws, HeadSize(b), w);
    if n > HeadSize(b) {
      WritePrefixFrame(WritePrefix(disk, ws, HeadSize(b)), slots, n - HeadSize(b), w);
    }
  }

  lemma HeaderNumbers(bytes: seq<byte>, width: i32, height: i32)
    requires Holds(bytes, 0, HeaderBytes(width, height))
    ensures |bytes| >= 8 && NumberAt(bytes, 0) == width && NumberAt(bytes, 4) == height
  {
    assert bytes[0..4] == ToBytes(width) && bytes[4..8] == ToBytes(height) by {
      assert bytes[0..8] == HeaderBytes(width, height);
    }
    FromTo(width);
    FromTo(height);
    EntryIsNumber(bytes, 0);
    EntryIsNumber(bytes, 4);
  }

  lemma {:induction false} TableNumbers(bytes: seq<byte>, t: seq<i32>)
    requires Holds(bytes, 8, TableBytes(t))
    ensures forall i :: 0 <= i < |t| ==> |bytes| >= 8 + 4 * |t| && NumberAt(bytes, 8 + 4 * i) == t[i]
  {
    hide NumberAt, ToBytes, FromBytes;
    forall i | 0 <= i < |t|
      ensures NumberAt(bytes, 8 + 4 * i) == t[i]
    {
      EntryIsNumber(bytes, 8 + 4 * i);
      TableEntryHeld(bytes, t, i);
    }
  }

  lemma {:induction false} TableEntryHeld(bytes: seq<byte>, t: seq<i32>, i: nat)
    requires Holds(bytes, 8, TableBytes(t)) && i < |t|
    ensures Entry(bytes, 8 + 4 * i) == t[i]
  {
    hide ToBytes, FromBytes, TableBytes;
    var table := TableBytes(t);
    TableEntry(t, i);
    SliceOfSlice(bytes, 8, 8 + |table|, 4 * i, 4 * i + 4);
  }
}
