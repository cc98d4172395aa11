/** Incremental flush of a map that keeps changing: taking a batch off it, writing the batch to
    the file in part or in whole, and putting a failed batch back. */
module MapFlush {
  import opened Wrappers
  import opened LittleEndian
  import opened Sequences
  import opened Disk
  import opened MapModel

  const HEADER_BYTES := 8

  // ---------------------------------------------------------------- the file format

  function HeaderBytes(width: i32, height: i32): (b: seq<byte>)
    ensures |b| == HEADER_BYTES
  {
    ToBytes(width) + ToBytes(height)
  }

  function BlockBytes(blocks: seq<Block>): (b: seq<byte>)
    ensures |b| == BLOCK_CELLS * |blocks|
  {
    if blocks == [] then [] else blocks[0] + BlockBytes(blocks[1..])
  }

  function Serialize(m: Map): (b: seq<byte>)
    ensures |b| == HEADER_BYTES + 4 * |m.indexes| + BLOCK_CELLS * |m.blocks|
  {
    HeaderBytes(m.width, m.height) + TableBytes(m.indexes) + BlockBytes(m.blocks)
  }

  function SlotAt(indexLen: nat, slot: nat): nat {
    HEADER_BYTES + indexLen * 4 + slot * BLOCK_CELLS
  }

  // ---------------------------------------------------------------- batches

  datatype SlotImage = SlotImage(slot: nat, data: Block)

  datatype Batch = Batch(
    generation: nat,
    header: Option<(i32, i32)>,
    indexes: Option<seq<i32>>,
    indexLen: nat,
    slots: seq<SlotImage>)

  function Images(m: Map, slots: seq<nat>): (r: seq<SlotImage>)
    requires forall i :: 0 <= i < |slots| ==> slots[i] < |m.blocks|
    ensures |r| == |slots|
    ensures forall i :: 0 <= i < |slots| ==> r[i] == SlotImage(slots[i], m.blocks[slots[i]])
  {
    seq(|slots|, i requires 0 <= i < |slots| => SlotImage(slots[i], m.blocks[slots[i]]))
  }

  function BatchOf(m: Map): Batch
    requires m.Valid()
  {
    Batch(m.generation,
          if m.needsHeader then Some((m.width, m.height)) else None,
          if m.indexDirty then Some(m.indexes) else None,
          |m.indexes|,
          Images(m, m.dirtySlots))
  }

  /** The map after its batch was taken: nothing is dirty any more. */
  function Taken(m: Map): Map {
    if m.IsDirty() then
      m.(dirtySlots := [], indexDirty := false, needsHeader := false, generation := m.generation + 1)
    else m
  }

  lemma TakenValid(m: Map)
    requires m.Valid()
    ensures Taken(m).Valid() && forall i :: 0 <= i < |m.dirtySlots| ==> m.dirtySlots[i] < |m.blocks|
  {
  }

  function MarkedAll(dirtySlots: seq<nat>, slots: seq<SlotImage>): seq<nat>
    decreases slots
  {
    if slots == [] then dirtySlots else MarkedAll(Marked(dirtySlots, slots[0].slot), slots[1..])
  }

  /** A failed batch gives back its dirty marks, not its data. */
  function Restored(m: Map, b: Batch): Map {
    m.(needsHeader := m.needsHeader || b.header.Some?,
       indexDirty := m.indexDirty || b.indexes.Some?,
       dirtySlots := MarkedAll(m.dirtySlots, b.slots))
  }

  // ---------------------------------------------------------------- what a batch writes

  function HeaderWrites(b: Batch): seq<Write> {
    if b.header.Some? then [Write(0, HeaderBytes(b.header.value.0, b.header.value.1))] else []
  }

  function TableWrites(b: Batch): seq<Write> {
    if b.indexes.Some? then [Write(HEADER_BYTES, TableBytes(b.indexes.value))] else []
  }

  function SlotWrite(indexLen: nat, s: SlotImage): Write {
    Write(SlotAt(indexLen, s.slot), s.data)
  }

  function SlotWrites(indexLen: nat, slots: seq<SlotImage>): (r: seq<Write>)
    ensures |r| == |slots|
    ensures forall i :: 0 <= i < |r| ==> r[i] == SlotWrite(indexLen, slots[i])
  {
    seq(|slots|, i requires 0 <= i < |slots| => SlotWrite(indexLen, slots[i]))
  }

  function Writes(b: Batch): seq<Write> {
    HeaderWrites(b) + TableWrites(b) + SlotWrites(b.indexLen, b.slots)
  }

  /** Every write of a batch is one of the three kinds. */
  lemma WriteKinds(b: Batch, w: Write)
    ensures w in Writes(b) <==>
            || (b.header.Some? && w == Write(0, HeaderBytes(b.header.value.0, b.header.value.1)))
            || (b.indexes.Some? && w == Write(HEADER_BYTES, TableBytes(b.indexes.value)))
            || (exists i :: 0 <= i < |b.slots| && w == SlotWrite(b.indexLen, b.slots[i]))
  {
    var sw := SlotWrites(b.indexLen, b.slots);
    assert w in sw <==> exists i :: 0 <= i < |sw| && sw[i] == w;
  }

  ghost predicate DistinctSlots(slots: seq<SlotImage>) {
    forall i, j :: 0 <= i < j < |slots| ==> slots[i].slot != slots[j].slot
  }

  ghost predicate BatchShape(b: Batch) {
    && b.indexLen > 0
    && (b.indexes.Some? ==> |b.indexes.value| == b.indexLen)
    && DistinctSlots(b.slots)
  }

  lemma WritesDisjoint(b: Batch)
    requires BatchShape(b)
    ensures PairwiseDisjoint(Writes(b))
    ensures forall w :: w in Writes(b) ==> w.data != []
  {
    forall w | w in Writes(b)
      ensures w.data != []
    {
      WriteKinds(b, w);
    }
    var sw := SlotWrites(b.indexLen, b.slots);
    forall i, j | 0 <= i < j < |sw|
      ensures Disjoint(sw[i], sw[j])
    {
      assert b.slots[i].slot != b.slots[j].slot;
    }
  }

  // ---------------------------------------------------------------- the system and its runs

  datatype Flight = Flight(batch: Batch, written: bool)

  /** A live map, the file under it and the batch being written, if any. */
  datatype System = System(live: Map, disk: seq<byte>, flight: Option<Flight>)

  /** One step of the game loop or of the flusher. `Persist(n)` is one attempt at writing the batch
      that gets n bytes out; it may be followed by a retry, a failure report or, when it got
      everything out, an acknowledgement. Cells may change between any two of these. */
  datatype Event =
    | Cell(x: int, y: int, cell: byte)
    | Take
    | Persist(n: nat)
    | Acknowledge
    | Fail

  function Next(s: System, e: Event): System
    requires s.live.Valid()
  {
    match e
    case Cell(x, y, cell) => s.(live := SetCell(s.live, x, y, cell))
    case Take =>
      if s.flight.Some? || !s.live.IsDirty() then s
      else s.(live := Taken(s.live), flight := Some(Flight(BatchOf(s.live), false)))
    case Persist(n) =>
      if s.flight.None? || s.flight.value.written then s
      else
        var ws := Writes(s.flight.value.batch);
        s.(disk := WritePrefix(s.disk, ws, n),
           flight := Some(s.flight.value.(written := n >= Size(ws))))
    case Acknowledge =>
      if s.flight.Some? && s.flight.value.written then s.(flight := None) else s
    case Fail =>
      if s.flight.None? then s
      else s.(live := Restored(s.live, s.flight.value.batch), flight := None)
  }

  // ---------------------------------------------------------------- the invariant

  ghost predicate HeaderCarried(s: System) {
    s.flight.Some? && s.flight.value.batch.header.Some?
  }

  ghost predicate TableCarried(s: System) {
    s.flight.Some? && s.flight.value.batch.indexes.Some?
  }

  ghost predicate SlotCarried(s: System, slot: nat) {
    s.flight.Some? && exists i :: 0 <= i < |s.flight.value.batch.slots| && s.flight.value.batch.slots[i].slot == slot
  }

  ghost predicate SlotOnDisk(m: Map, disk: seq<byte>, slot: nat)
    requires slot < |m.blocks|
  {
    Holds(disk, SlotAt(|m.indexes|, slot), m.blocks[slot])
  }

  /** The batch in flight agrees with the live map wherever the map has not been dirtied since. */
  ghost predicate FlightAgrees(m: Map, b: Batch) {
    && BatchShape(b)
    && b.indexLen == |m.indexes|
    && (b.header.Some? ==> b.header.value == (m.width, m.height))
    && (b.indexes.Some? && !m.indexDirty ==> b.indexes.value == m.indexes)
    && (forall i :: 0 <= i < |b.slots| ==>
          && b.slots[i].slot < |m.blocks|
          && (b.slots[i].slot in m.dirtySlots || b.slots[i].data == m.blocks[b.slots[i].slot]))
  }

  /** Wherever the file differs from what the map would serialize to, a dirty mark of the map or
      the batch in flight says so. */
  ghost predicate Covered(s: System) {
    && s.live.Valid()
    && (s.live.needsHeader || HeaderCarried(s) || Holds(s.disk, 0, HeaderBytes(s.live.width, s.live.height)))
    && (s.live.indexDirty || TableCarried(s) || Holds(s.disk, HEADER_BYTES, TableBytes(s.live.indexes)))
    && (forall slot :: 0 <= slot < |s.live.blocks| ==>
          slot in s.live.dirtySlots || SlotCarried(s, slot) || SlotOnDisk(s.live, s.disk, slot))
    && (s.flight.Some? ==> FlightAgrees(s.live, s.flight.value.batch))
    && (s.flight.Some? && s.flight.value.written ==>
          forall w :: w in Writes(s.flight.value.batch) ==> Holds(s.disk, w.at, w.data))
  }

  lemma CellCovered(s: System, x: int, y: int, cell: byte)
    requires Covered(s)
    ensures Covered(Next(s, Cell(x, y, cell)))
  {
    SetCellValid(s.live, x, y, cell);
    var m, m' := s.live, SetCell(s.live, x, y, cell);
    if m.InGrid(x, y) {
      BlockIdBound(m.BlocksW(), m.BlocksH(), x, y);
      var id := BlockId(m.BlocksW(), x, y);
      var slot := m'.indexes[id];
      assert slot in m'.dirtySlots;
      forall t | 0 <= t < |m'.blocks| && t !in m'.dirtySlots
        ensures t < |m.blocks| && t !in m.dirtySlots && m'.blocks[t] == m.blocks[t]
      {
      }
    }
  }

  lemma TakeCovered(s: System)
    requires Covered(s)
    ensures Covered(Next(s, Take))
  {
    if s.flight.None? && s.live.IsDirty() {
      var s', b := Next(s, Take), BatchOf(s.live);
      forall slot | 0 <= slot < |s.live.blocks|
        ensures SlotCarried(s', slot) || SlotOnDisk(s'.live, s'.disk, slot)
      {
        if slot in s.live.dirtySlots {
          var i :| 0 <= i < |s.live.dirtySlots| && s.live.dirtySlots[i] == slot;
          assert b.slots[i].slot == slot;
        }
      }
    }
  }

  /** The regions of the format: header, index table and one region a slot, none overlapping. */
  lemma RegionOutsideWrites(b: Batch, r: Write)
    requires BatchShape(b)
    requires || (b.header.None? && r.at == 0 && |r.data| == HEADER_BYTES)
             || (b.indexes.None? && r.at == HEADER_BYTES && |r.data| == 4 * b.indexLen)
             || (exists slot: nat :: r.at == SlotAt(b.indexLen, slot) && |r.data| == BLOCK_CELLS
                   && forall i :: 0 <= i < |b.slots| ==> b.slots[i].slot != slot)
    ensures forall w :: w in Writes(b) ==> Disjoint(w, r)
  {
    forall w | w in Writes(b)
      ensures Disjoint(w, r)
    {
      WriteKinds(b, w);
    }
  }

  lemma PersistCovered(s: System, n: nat)
    requires Covered(s)
    ensures Covered(Next(s, Persist(n)))
  {
    if s.flight.Some? && !s.flight.value.written {
      var s', b, m := Next(s, Persist(n)), s.flight.value.batch, s.live;
      var ws := Writes(b);
      if b.header.None? && !m.needsHeader {
        var r := Write(0, HeaderBytes(m.width, m.height));
        RegionOutsideWrites(b, r);
        WritePrefixFrame(s.disk, ws, n, r);
      }
      if b.indexes.None? && !m.indexDirty {
        var r := Write(HEADER_BYTES, TableBytes(m.indexes));
        RegionOutsideWrites(b, r);
        WritePrefixFrame(s.disk, ws, n, r);
      }
      forall slot | 0 <= slot < |m.blocks| && slot !in m.dirtySlots && !SlotCarried(s', slot)
        ensures SlotOnDisk(m, s'.disk, slot)
      {
        assert !SlotCarried(s, slot);
        var r := Write(SlotAt(|m.indexes|, slot), m.blocks[slot]);
        RegionOutsideWrites(b, r);
        WritePrefixFrame(s.disk, ws, n, r);
      }
      if n >= Size(ws) {
        WritesDisjoint(b);
        forall w | w in ws
          ensures Holds(s'.disk, w.at, w.data)
        {
          WriteAllHolds(s.disk, ws, n, w);
        }
      }
    }
  }

  lemma AcknowledgeCovered(s: System)
    requires Covered(s)
    ensures Covered(Next(s, Acknowledge))
  {
    if s.flight.Some? && s.flight.value.written {
      var b, m := s.flight.value.batch, s.live;
      if b.header.Some? {
        WriteKinds(b, Write(0, HeaderBytes(b.header.value.0, b.header.value.1)));
      }
      if b.indexes.Some? {
        WriteKinds(b, Write(HEADER_BYTES, TableBytes(b.indexes.value)));
      }
      forall slot | 0 <= slot < |m.blocks| && slot !in m.dirtySlots
        ensures SlotOnDisk(m, s.disk, slot)
      {
        if SlotCarried(s, slot) {
          var i :| 0 <= i < |b.slots| && b.slots[i].slot == slot;
          WriteKinds(b, SlotWrite(b.indexLen, b.slots[i]));
        }
      }
    }
  }

  /** Marking a list of slots keeps the dirty list free of repetition and adds exactly those. */
  lemma {:induction false} MarkedAllExact(dirtySlots: seq<nat>, slots: seq<SlotImage>)
    requires NoDup(dirtySlots)
    ensures NoDup(MarkedAll(dirtySlots, slots))
    ensures forall s :: s in MarkedAll(dirtySlots, slots) <==>
                        s in dirtySlots || exists i :: 0 <= i < |slots| && slots[i].slot == s
    decreases slots
  {
    if slots != [] {
      if slots[0].slot !in dirtySlots {
        NoDupAppend(dirtySlots, slots[0].slot);
      }
      var first, rest := Marked(dirtySlots, slots[0].slot), slots[1..];
      MarkedAllExact(first, rest);
      forall s
        ensures s in MarkedAll(dirtySlots, slots) <==>
                s in dirtySlots || exists i :: 0 <= i < |slots| && slots[i].slot == s
      {
        if i :| 0 <= i < |rest| && rest[i].slot == s {
          assert slots[i + 1].slot == s;
        }
        if i :| 0 <= i < |slots| && slots[i].slot == s {
          assert i == 0 || rest[i - 1].slot == s;
        }
      }
    }
  }

  lemma RestoredValid(m: Map, b: Batch)
    requires m.Valid() && FlightAgrees(m, b)
    ensures Restored(m, b).Valid()
    ensures forall slot :: slot in Restored(m, b).dirtySlots <==>
              slot in m.dirtySlots || exists i :: 0 <= i < |b.slots| && b.slots[i].slot == slot
  {
    MarkedAllExact(m.dirtySlots, b.slots);
    var dirty := MarkedAll(m.dirtySlots, b.slots);
    forall i | 0 <= i < |dirty|
      ensures dirty[i] < |m.blocks|
    {
      assert dirty[i] in dirty;
    }
  }

  lemma FailCovered(s: System)
    requires Covered(s)
    ensures Covered(Next(s, Fail))
  {
    if s.flight.Some? {
      var m, s' := s.live, Next(s, Fail);
      RestoredValid(m, s.flight.value.batch);
      forall slot | 0 <= slot < |m.blocks|
        ensures slot in s'.live.dirtySlots || SlotOnDisk(s'.live, s'.disk, slot)
      {
        assert slot in m.dirtySlots || SlotCarried(s, slot) || SlotOnDisk(m, s.disk, slot);
      }
    }
  }

  lemma NextCovered(s: System, e: Event)
    requires Covered(s)
    ensures Covered(Next(s, e))
  {
    match e
    case Cell(x, y, cell) => CellCovered(s, x, y, cell);
    case Take => TakeCovered(s);
    case Persist(n) => PersistCovered(s, n);
    case Acknowledge => AcknowledgeCovered(s);
    case Fail => FailCovered(s);
  }

  // ---------------------------------------------------------------- whole runs

  ghost function Run(s: System, es: seq<Event>): System
    requires Covered(s)
    decreases es
  {
    if es == [] then s
    else
      NextCovered(s, es[0]);
      Run(Next(s, es[0]), es[1..])
  }

  /** Safety over whole runs: no interleaving of cell writes, takes, partial or complete writes,
      retries, acknowledgements and failures loses track of a difference between map and file. */
  lemma {:induction false} RunCovered(s: System, es: seq<Event>)
    requires Covered(s)
    ensures Covered(Run(s, es))
    decreases es
  {
    if es != [] {
      NextCovered(s, es[0]);
      RunCovered(Next(s, es[0]), es[1..]);
    }
  }

  lemma {:induction false} BlockOfBytes(blocks: seq<Block>, i: nat)
    requires i < |blocks|
    ensures BlockBytes(blocks)[i * BLOCK_CELLS..(i + 1) * BLOCK_CELLS] == blocks[i]
  {
    if i > 0 {
      BlockOfBytes(blocks[1..], i - 1);
      assert BlockBytes(blocks)[i * BLOCK_CELLS..(i + 1) * BLOCK_CELLS]
          == BlockBytes(blocks[1..])[(i - 1) * BLOCK_CELLS..i * BLOCK_CELLS];
    }
  }

  /** Blocks found one after the other in a file are there as one region. */
  lemma HoldsConcat(disk: seq<byte>, at: nat, a: seq<byte>, b: seq<byte>)
    requires Holds(disk, at, a) && Holds(disk, at + |a|, b)
    ensures Holds(disk, at, a + b)
  {
    assert disk[at..at + |a + b|] == disk[at..at + |a|] + disk[at + |a|..at + |a + b|];
  }

  lemma {:induction false} BlocksHeld(disk: seq<byte>, at: nat, blocks: seq<Block>)
    requires at <= |disk|
    requires forall i :: 0 <= i < |blocks| ==> Holds(disk, at + i * BLOCK_CELLS, blocks[i])
    ensures Holds(disk, at, BlockBytes(blocks))
    decreases blocks
  {
    if blocks != [] {
      assert Holds(disk, at + 0 * BLOCK_CELLS, blocks[0]);
      forall i | 0 <= i < |blocks| - 1
        ensures Holds(disk, at + BLOCK_CELLS + i * BLOCK_CELLS, blocks[1..][i])
      {
        assert Holds(disk, at + (i + 1) * BLOCK_CELLS, blocks[i + 1]);
      }
      BlocksHeld(disk, at + BLOCK_CELLS, blocks[1..]);
      HoldsConcat(disk, at, blocks[0], BlockBytes(blocks[1..]));
    }
  }

  /** With nothing in flight and nothing dirty, the file starts with exactly what the map
      serializes to. Only bytes of an older, longer file can follow. */
  lemma CleanMeansSaved(s: System)
    requires Covered(s) && s.flight.None? && !s.live.IsDirty()
    ensures Serialize(s.live) <= s.disk
  {
    hide TableBytes, BlockBytes;
    var m := s.live;
    var g := |m.indexes|;
    forall i | 0 <= i < |m.blocks|
      ensures Holds(s.disk, HEADER_BYTES + 4 * g + i * BLOCK_CELLS, m.blocks[i])
    {
      assert SlotOnDisk(m, s.disk, i);
    }
    BlocksHeld(s.disk, HEADER_BYTES + 4 * g, m.blocks);
    HoldsConcat(s.disk, 0, HeaderBytes(m.width, m.height), TableBytes(m.indexes));
    HoldsConcat(s.disk, 0, HeaderBytes(m.width, m.height) + TableBytes(m.indexes), BlockBytes(m.blocks));
  }

  lemma RunThenClean(s: System, es: seq<Event>)
    requires Covered(s)
    requires var t := Run(s, es); t.flight.None? && !t.live.IsDirty()
    ensures var t := Run(s, es); Serialize(t.live) <= t.disk
  {
    RunCovered(s, es);
    CleanMeansSaved(Run(s, es));
  }

  /** Any map over any old file is covered while it is new: everything is marked for writing. */
  lemma FreshCovered(width: i32, height: i32, disk: seq<byte>)
    requires width >= BLOCK_SIZE && height >= BLOCK_SIZE
    requires width / BLOCK_SIZE * (height / BLOCK_SIZE) <= MAX_I32
    ensures Covered(System(Fresh(width, height), disk, None))
  {
    FreshValid(width, height);
  }

  // ---------------------------------------------------------------- recovery

  lemma RunStep(s: System, e: Event, es: seq<Event>)
    requires Covered(s)
    ensures Covered(Next(s, e)) && Run(s, [e] + es) == Run(Next(s, e), es)
  {
    NextCovered(s, e);
    assert ([e] + es)[1..] == es;
  }

  lemma RunOfThree(s: System, a: Event, b: Event, c: Event)
    requires Covered(s)
    ensures Covered(Next(s, a)) && Covered(Next(Next(s, a), b))
    ensures Run(s, [a, b, c]) == Next(Next(Next(s, a), b), c)
  {
    RunStep(s, a, [b, c]);
    assert [a, b, c] == [a] + [b, c];
    RunStep(Next(s, a), b, [c]);
    assert [b, c] == [b] + [c];
    RunStep(Next(Next(s, a), b), c, []);
    assert [c] == [c] + [];
  }

  /** One full save of a map that has nothing in flight. */
  lemma SaveCleans(s: System, n: nat)
    requires Covered(s) && s.flight.None?
    requires n >= Size(Writes(BatchOf(s.live)))
    ensures var t := Run(s, [Take, Persist(n), Acknowledge]);
            && t.flight.None? && !t.live.IsDirty()
            && t.live.blocks == s.live.blocks && t.live.indexes == s.live.indexes
            && Serialize(t.live) == Serialize(s.live) <= t.disk
  {
    hide HeaderCarried, TableCarried, SlotCarried, SlotOnDisk, FlightAgrees, Serialize, Next, Run, Writes;
    RunOfThree(s, Take, Persist(n), Acknowledge);
    var t := Next(Next(Next(s, Take), Persist(n)), Acknowledge);
    SaveSteps(s, n);
    NextCovered(Next(Next(s, Take), Persist(n)), Acknowledge);
    CleanMeansSaved(t);
    SameSerialized(s.live, t.live);
  }

  lemma SaveSteps(s: System, n: nat)
    requires Covered(s) && s.flight.None? && n >= Size(Writes(BatchOf(s.live)))
    requires Covered(Next(s, Take)) && Covered(Next(Next(s, Take), Persist(n)))
    ensures var t := Next(Next(Next(s, Take), Persist(n)), Acknowledge);
            t.flight.None? && t.live == Taken(s.live)
  {
    hide Writes, WritePrefix, Size, HeaderCarried, TableCarried, SlotCarried, SlotOnDisk, FlightAgrees;
  }

  lemma SameSerialized(a: Map, b: Map)
    requires b == Taken(a)
    ensures Serialize(b) == Serialize(a) && b.blocks == a.blocks && b.indexes == a.indexes
  {
  }

  /** From any state a run can reach, reporting the batch in flight as failed and saving once in
      full leaves the map clean, its cells as they were and the file right. */
  lemma SaveRecovers(s: System, n: nat)
    requires Covered(s)
    requires n >= Size(Writes(BatchOf(FailedBack(s).live)))
    ensures var t := Run(s, [Fail, Take, Persist(n), Acknowledge]);
            && t.flight.None? && !t.live.IsDirty()
            && t.live.blocks == s.live.blocks && t.live.indexes == s.live.indexes
            && Serialize(t.live) == Serialize(s.live) <= t.disk
  {
    hide Next, Run, Serialize, Covered, BatchOf, Writes;
    FailedKeeps(s);
    RunStep(s, Fail, [Take, Persist(n), Acknowledge]);
    assert [Fail, Take, Persist(n), Acknowledge] == [Fail] + [Take, Persist(n), Acknowledge];
    SaveCleans(FailedBack(s), n);
  }

  lemma FailedKeeps(s: System)
    requires Covered(s)
    ensures var t := FailedBack(s);
            && Covered(t) && t == Next(s, Fail) && t.flight.None?
            && t.live.blocks == s.live.blocks && t.live.indexes == s.live.indexes
            && Serialize(t.live) == Serialize(s.live)
  {
    NextCovered(s, Fail);
  }

  /** The state once the batch in flight, if any, has been reported as failed. */
  ghost function FailedBack(s: System): (t: System)
    requires Covered(s)
    ensures t.live.Valid()
  {
    NextCovered(s, Fail);
    Next(s, Fail)
  }
}
