/** Building deletion and batch saves: changes of several rows that happen together or not at all. */
module Persistence {
  import opened Wrappers

  type Coord = (int, int)

  datatype Building = Building(typeCode: string, x: int, y: int, data: string)

  /** `name` stands for the columns a save does not write. */
  datatype Player = Player(name: string, resp: Option<Coord>, saved: string)

  datatype BoxWrite = BoxWrite(x: int, y: int, crystals: Option<seq<int>>)

  datatype DeleteWrite = DeleteWrite(id: int, x: int, y: int, clearResp: bool, box: Option<BoxWrite>)

  datatype DeleteOutcome = Deleted(cleared: nat) | IdentityMismatch

  datatype Tables = Tables(buildings: map<int, Building>, players: map<int, Player>, boxes: map<Coord, seq<int>>)

  // ---------------------------------------------------------------- single rows

  function BoxApplied(boxes: map<Coord, seq<int>>, w: BoxWrite): map<Coord, seq<int>> {
    if w.crystals.Some? then boxes[(w.x, w.y) := w.crystals.value] else boxes - {(w.x, w.y)}
  }

  function BoxesApplied(boxes: map<Coord, seq<int>>, ws: seq<BoxWrite>): map<Coord, seq<int>> {
    if ws == [] then boxes else BoxApplied(BoxesApplied(boxes, ws[..|ws| - 1]), ws[|ws| - 1])
  }

  function Unbound(players: map<int, Player>, at: Coord): map<int, Player> {
    map p | p in players :: if players[p].resp == Some(at) then players[p].(resp := None) else players[p]
  }

  function BoundAt(players: map<int, Player>, at: Coord): set<int> {
    set p | p in players && players[p].resp == Some(at)
  }

  // ---------------------------------------------------------------- building deletion

  predicate Matches(t: Tables, w: DeleteWrite) {
    w.id in t.buildings && t.buildings[w.id].x == w.x && t.buildings[w.id].y == w.y
  }

  /** The id belongs to a building elsewhere, or the place to another building. */
  predicate Conflicts(t: Tables, w: DeleteWrite) {
    !Matches(t, w)
    && (w.id in t.buildings || exists b :: b in t.buildings && t.buildings[b].x == w.x && t.buildings[b].y == w.y)
  }

  /** The number or the place is taken, but not the one by the other. */
  ghost predicate Elsewhere(buildings: map<int, Building>, id: int, x: int, y: int) {
    if id in buildings then (buildings[id].x, buildings[id].y) != (x, y)
    else exists b :: b in buildings && (buildings[b].x, buildings[b].y) == (x, y)
  }

  function BoxAt(boxes: map<Coord, seq<int>>, at: Coord): Option<seq<int>> {
    if at in boxes then Some(boxes[at]) else None
  }

  function Removed(t: Tables, w: DeleteWrite): Tables {
    Tables(t.buildings - {w.id},
           if w.clearResp then Unbound(t.players, (w.x, w.y)) else t.players,
           if w.box.Some? then BoxApplied(t.boxes, w.box.value) else t.boxes)
  }

  function DeleteApplied(t: Tables, w: DeleteWrite): (DeleteOutcome, Tables) {
    if Conflicts(t, w) then (IdentityMismatch, t)
    else (Deleted(if w.clearResp then |BoundAt(t.players, (w.x, w.y))| else 0), Removed(t, w))
  }

  lemma UnboundTwice(players: map<int, Player>, at: Coord)
    ensures Unbound(Unbound(players, at), at) == Unbound(players, at)
    ensures BoundAt(Unbound(players, at), at) == {}
  {
  }

  /** Deleting once more, with nothing in between, is deleting once: what the first time did is not
      done again, and neither outcome of the second time changes anything. */
  lemma DeleteTwice(t: Tables, w: DeleteWrite)
    ensures var once := DeleteApplied(t, w).1;
            DeleteApplied(once, w).1 == once
  {
    if !Conflicts(t, w) {
      var once := Removed(t, w);
      UnboundTwice(t.players, (w.x, w.y));
      if !Conflicts(once, w) {
        var twice := Removed(once, w);
        assert twice.buildings == once.buildings;
        assert twice.players == once.players;
        assert twice.boxes == once.boxes;
      }
    }
  }

  function Replayed(t: Tables, w: DeleteWrite, n: nat): Tables {
    if n == 0 then t else DeleteApplied(Replayed(t, w, n - 1), w).1
  }

  /** However often a deletion is replayed. */
  lemma {:induction false} ReplayIsOnce(t: Tables, w: DeleteWrite, n: nat)
    requires n >= 1
    ensures Replayed(t, w, n) == DeleteApplied(t, w).1
  {
    if n > 1 {
      ReplayIsOnce(t, w, n - 1);
      DeleteTwice(t, w);
    } else {
      assert Replayed(t, w, 0) == t;
    }
  }

  /** A replay is recognised as the same deletion exactly when no other building shares the place. */
  lemma ReplayOutcome(t: Tables, w: DeleteWrite)
    requires DeleteApplied(t, w).0.Deleted?
    ensures DeleteApplied(DeleteApplied(t, w).1, w).0 == Deleted(0)
       <==> forall b :: b in t.buildings && b != w.id ==> (t.buildings[b].x, t.buildings[b].y) != (w.x, w.y)
  {
    var once := DeleteApplied(t, w).1;
    UnboundTwice(t.players, (w.x, w.y));
    if b :| b in t.buildings && b != w.id && (t.buildings[b].x, t.buildings[b].y) == (w.x, w.y) {
      assert b in once.buildings && once.buildings[b] == t.buildings[b];
      assert Conflicts(once, w);
    }
  }

  // ---------------------------------------------------------------- batches

  datatype BuildingRow = BuildingRow(id: int, typeCode: string, x: int, y: int, data: string)

  datatype PlayerRow = PlayerRow(id: int, resp: Option<Coord>, saved: string)

  datatype Error = NoSuchPlayer(id: int) | NoSuchBuilding(id: int)

  /** Only the first character of a type code is stored. */
  function Stored(r: BuildingRow): Building {
    Building(if r.typeCode == "" then " " else [r.typeCode[0]], r.x, r.y, r.data)
  }

  function Saved(p: Player, r: PlayerRow): Player {
    p.(resp := r.resp, saved := r.saved)
  }

  function BuildingsSaved(buildings: map<int, Building>, rows: seq<BuildingRow>): map<int, Building> {
    if rows == [] then buildings
    else BuildingsSaved(buildings, rows[..|rows| - 1])[rows[|rows| - 1].id := Stored(rows[|rows| - 1])]
  }

  function PlayersSaved(players: map<int, Player>, rows: seq<PlayerRow>): map<int, Player>
    requires forall i :: 0 <= i < |rows| ==> rows[i].id in players
    ensures PlayersSaved(players, rows).Keys == players.Keys
  {
    if rows == [] then players
    else
      var front, last := PlayersSaved(players, rows[..|rows| - 1]), rows[|rows| - 1];
      front[last.id := Saved(front[last.id], last)]
  }

  predicate BuildingsKnown(buildings: map<int, Building>, rows: seq<BuildingRow>) {
    forall i :: 0 <= i < |rows| ==> rows[i].id in buildings
  }

  predicate PlayersKnown(players: map<int, Player>, rows: seq<PlayerRow>) {
    forall i :: 0 <= i < |rows| ==> rows[i].id in players
  }

  /** The last row of the batch for a key; -1 when there is none. */
  function LastFor(ids: seq<int>, id: int): int {
    if ids == [] then -1 else if ids[|ids| - 1] == id then |ids| - 1 else LastFor(ids[..|ids| - 1], id)
  }

  function BuildingIds(rows: seq<BuildingRow>): (ids: seq<int>)
    ensures |ids| == |rows| && forall i :: 0 <= i < |rows| ==> ids[i] == rows[i].id
  {
    seq(|rows|, i requires 0 <= i < |rows| => rows[i].id)
  }

  lemma {:induction false} LastForIsLast(ids: seq<int>, id: int)
    ensures -1 <= LastFor(ids, id) < |ids|
    ensures LastFor(ids, id) >= 0 ==> ids[LastFor(ids, id)] == id
    ensures forall i :: LastFor(ids, id) < i < |ids| ==> ids[i] != id
  {
    if ids != [] && ids[|ids| - 1] != id {
      LastForIsLast(ids[..|ids| - 1], id);
      assert forall i :: 0 <= i < |ids| - 1 ==> ids[..|ids| - 1][i] == ids[i];
    }
  }

  /** In a saved batch the last row for an id wins, and buildings not in the batch are as they were. */
  lemma {:induction false} LastBuildingWins(buildings: map<int, Building>, rows: seq<BuildingRow>, id: int)
    requires BuildingsKnown(buildings, rows) && id in buildings
    ensures BuildingsSaved(buildings, rows).Keys == buildings.Keys
    ensures var last := LastFor(BuildingIds(rows), id);
            -1 <= last < |rows|
            && BuildingsSaved(buildings, rows)[id] ==
               if last < 0 then buildings[id]
               else
                 var r := rows[last];
                 Building(if r.typeCode == "" then " " else [r.typeCode[0]], r.x, r.y, r.data)
  {
    LastForIsLast(BuildingIds(rows), id);
    if rows != [] {
      var front := rows[..|rows| - 1];
      assert BuildingIds(rows)[..|rows| - 1] == BuildingIds(front);
      LastBuildingWins(buildings, front, id);
    }
  }

  function PlayerIds(rows: seq<PlayerRow>): (ids: seq<int>)
    ensures |ids| == |rows| && forall i :: 0 <= i < |rows| ==> ids[i] == rows[i].id
  {
    seq(|rows|, i requires 0 <= i < |rows| => rows[i].id)
  }

  /** The same for players, of whom only two columns are written. */
  lemma {:induction false} LastPlayerWins(players: map<int, Player>, rows: seq<PlayerRow>, id: int)
    requires PlayersKnown(players, rows) && id in players
    ensures var last := LastFor(PlayerIds(rows), id);
            -1 <= last < |rows|
            && PlayersSaved(players, rows)[id] ==
               if last < 0 then players[id] else Player(players[id].name, rows[last].resp, rows[last].saved)
  {
    LastForIsLast(PlayerIds(rows), id);
    if rows != [] {
      var front := rows[..|rows| - 1];
      assert PlayerIds(rows)[..|rows| - 1] == PlayerIds(front);
      LastPlayerWins(players, front, id);
    }
  }

  /** The same for boxes, where a row may also delete. */
  lemma {:induction false} LastBoxWins(boxes: map<Coord, seq<int>>, ws: seq<BoxWrite>, at: Coord, k: nat)
    requires k < |ws| && (ws[k].x, ws[k].y) == at
    requires forall i :: k < i < |ws| ==> (ws[i].x, ws[i].y) != at
    ensures var after := BoxesApplied(boxes, ws);
            (if at in after then Some(after[at]) else None) == ws[k].crystals
  {
    if k < |ws| - 1 {
      LastBoxWins(boxes, ws[..|ws| - 1], at, k);
    }
  }

  lemma {:induction false} UntouchedBox(boxes: map<Coord, seq<int>>, ws: seq<BoxWrite>, at: Coord)
    requires forall i :: 0 <= i < |ws| ==> (ws[i].x, ws[i].y) != at
    ensures at in BoxesApplied(boxes, ws) <==> at in boxes
    ensures at in boxes ==> BoxesApplied(boxes, ws)[at] == boxes[at]
  {
    if ws != [] {
      UntouchedBox(boxes, ws[..|ws| - 1], at);
    }
  }

  // ---------------------------------------------------------------- the tables as they are updated

  class Database {
    var buildings: map<int, Building>
    var players: map<int, Player>
    var boxes: map<Coord, seq<int>>

    ghost function State(): Tables
      reads this
    {
      Tables(buildings, players, boxes)
    }

    constructor (t: Tables)
      ensures State() == t
    {
      buildings, players, boxes := t.buildings, t.players, t.boxes;
    }

    method ApplyBuildingDelete(w: DeleteWrite) returns (outcome: DeleteOutcome)
      modifies this
      ensures (outcome, State()) == DeleteApplied(old(State()), w)
      ensures outcome == IdentityMismatch <==> Elsewhere(old(buildings), w.id, w.x, w.y)
      ensures outcome == IdentityMismatch ==>
                buildings == old(buildings) && players == old(players) && boxes == old(boxes)
      ensures outcome.Deleted? ==> buildings == old(buildings) - {w.id} && players.Keys == old(players).Keys
      ensures outcome.Deleted? ==> forall p :: p in players ==>
                var before := old(players)[p];
                players[p] == if w.clearResp && before.resp == Some((w.x, w.y))
                              then Player(before.name, None, before.saved) else before
      ensures outcome.Deleted? ==> forall at :: at in old(boxes).Keys + boxes.Keys ==>
                BoxAt(boxes, at) == if w.box.Some? && at == (w.box.value.x, w.box.value.y) then w.box.value.crystals
                                    else BoxAt(old(boxes), at)
      ensures outcome.Deleted? ==>
                var bound := set p | p in old(players) && old(players)[p].resp == Some((w.x, w.y));
                outcome.cleared == if w.clearResp then |bound| else 0
    {
      var txBuildings, txPlayers, txBoxes := buildings, players, boxes;
      var deleted := w.id in txBuildings && txBuildings[w.id].x == w.x && txBuildings[w.id].y == w.y;
      if deleted {
        txBuildings := txBuildings - {w.id};
      } else {
        var conflicting := w.id in txBuildings
          || exists b :: b in txBuildings && txBuildings[b].x == w.x && txBuildings[b].y == w.y;
        if conflicting { return IdentityMismatch; }
        assert txBuildings - {w.id} == txBuildings;
      }
      var cleared := 0;
      if w.clearResp {
        cleared := |BoundAt(txPlayers, (w.x, w.y))|;
        txPlayers := Unbound(txPlayers, (w.x, w.y));
      }
      if w.box.Some? {
        txBoxes := BoxApplied(txBoxes, w.box.value);
      }
      buildings, players, boxes := txBuildings, txPlayers, txBoxes;
      outcome := Deleted(cleared);
    }

    method SaveBoxesBatch(ws: seq<BoxWrite>)
      modifies this
      ensures State() == old(State()).(boxes := BoxesApplied(old(boxes), ws))
    {
      var tx := boxes;
      for i := 0 to |ws|
        modifies {}
        invariant tx == BoxesApplied(boxes, ws[..i])
      {
        assert ws[..i + 1][..i] == ws[..i];
        tx := BoxApplied(tx, ws[i]);
      }
      assert ws[..|ws|] == ws;
      boxes := tx;
    }

    method SaveBuildingsBatch(rows: seq<BuildingRow>) returns (r: Result<(), Error>)
      modifies this
      ensures r.Success? <==> BuildingsKnown(old(buildings), rows)
      ensures r.Success? ==> State() == old(State()).(buildings := BuildingsSaved(old(buildings), rows))
      ensures r.Failure? ==> State() == old(State())
    {
      var tx := buildings;
      for i := 0 to |rows|
        modifies {}
        invariant BuildingsKnown(buildings, rows[..i])
        invariant tx == BuildingsSaved(buildings, rows[..i]) && tx.Keys == buildings.Keys
      {
        assert rows[..i + 1][..i] == rows[..i];
        if rows[i].id !in tx { return Failure(NoSuchBuilding(rows[i].id)); }
        tx := tx[rows[i].id := Stored(rows[i])];
      }
      assert rows[..|rows|] == rows;
      buildings := tx;
      r := Success(());
    }

    /** `save_player_building_batch`: both rows of every pair, or nothing. */
    method SavePlayerBuildingBatch(transfers: seq<(PlayerRow, BuildingRow)>) returns (r: Result<(), Error>)
      modifies this
      ensures r.Success? <==> PairsKnown(old(State()), transfers)
      ensures r.Success? ==> State() == PairsSaved(old(State()), transfers)
      ensures r.Failure? ==> State() == old(State())
    {
      hide Stored, Saved;
      var txPlayers, txBuildings := players, buildings;
      for i := 0 to |transfers|
        modifies {}
        invariant PairsKnown(State(), transfers[..i])
        invariant Tables(txBuildings, txPlayers, boxes) == PairsSaved(State(), transfers[..i])
        invariant txPlayers.Keys == players.Keys && txBuildings.Keys == buildings.Keys
      {
        assert transfers[..i + 1][..i] == transfers[..i];
        var (p, b) := transfers[i];
        if p.id !in txPlayers { return Failure(NoSuchPlayer(p.id)); }
        txPlayers := txPlayers[p.id := Saved(txPlayers[p.id], p)];
        if b.id !in txBuildings { return Failure(NoSuchBuilding(b.id)); }
        txBuildings := txBuildings[b.id := Stored(b)];
      }
      assert transfers[..|transfers|] == transfers;
      players, buildings := txPlayers, txBuildings;
      r := Success(());
    }
  }

  predicate PairsKnown(t: Tables, transfers: seq<(PlayerRow, BuildingRow)>) {
    forall i :: 0 <= i < |transfers| ==> transfers[i].0.id in t.players && transfers[i].1.id in t.buildings
  }

  function PairsSaved(t: Tables, transfers: seq<(PlayerRow, BuildingRow)>): (r: Tables)
    requires PairsKnown(t, transfers)
    ensures r.players.Keys == t.players.Keys
  {
    if transfers == [] then t
    else
      var front, (p, b) := PairsSaved(t, transfers[..|transfers| - 1]), transfers[|transfers| - 1];
      front.(players := front.players[p.id := Saved(front.players[p.id], p)],
             buildings := front.buildings[b.id := Stored(b)])
  }

  function PlayerRows(transfers: seq<(PlayerRow, BuildingRow)>): (r: seq<PlayerRow>)
    ensures |r| == |transfers| && forall i :: 0 <= i < |r| ==> r[i] == transfers[i].0
  {
    seq(|transfers|, i requires 0 <= i < |transfers| => transfers[i].0)
  }

  function BuildingRows(transfers: seq<(PlayerRow, BuildingRow)>): (r: seq<BuildingRow>)
    ensures |r| == |transfers| && forall i :: 0 <= i < |r| ==> r[i] == transfers[i].1
  {
    seq(|transfers|, i requires 0 <= i < |transfers| => transfers[i].1)
  }

  /** A batch of pairs is a batch of players and a batch of buildings: the two never mix. */
  lemma {:induction false} PairsAreBatches(t: Tables, transfers: seq<(PlayerRow, BuildingRow)>)
    requires PairsKnown(t, transfers)
    ensures PairsSaved(t, transfers)
         == Tables(BuildingsSaved(t.buildings, BuildingRows(transfers)),
                   PlayersSaved(t.players, PlayerRows(transfers)), t.boxes)
  {
    hide Stored, Saved;
    if transfers != [] {
      var front := transfers[..|transfers| - 1];
      PairsAreBatches(t, front);
      assert PlayerRows(transfers)[..|transfers| - 1] == PlayerRows(front);
      assert BuildingRows(transfers)[..|transfers| - 1] == BuildingRows(front);
    }
  }
}
