/** A world from the cell file to the last cell: definitions, durabilities, skeleton, layout and fill. */
module WorldGeneration {
  import opened LittleEndian
  import opened Wrappers
  import opened GridIndex
  import opened FloodFill
  import opened CellDefs
  import Skeleton

  /** Some line of the file defines the cell's type, and the cell has the durability of that line. */
  ghost predicate AsListed(parsed: seq<CellDef>, cell: byte, durability: real) {
    exists line :: 0 <= line < |parsed| && parsed[line].cellType == cell && parsed[line].durability == durability
  }

  lemma CellAsListed(parsed: seq<CellDef>, defs: seq<CellDef>, table: seq<real>,
                     cells: seq<byte>, durability: seq<real>, i: nat)
    requires Dense(parsed, defs) && |table| == 256 && i < |cells| && Known(cells)
    requires forall t :: 0 <= t < 256 ==> table[t] == if t < |defs| then defs[t].durability else 0.0
    requires OwnDurability(table, cells, durability)
    ensures AsListed(parsed, cells[i], durability[i])
  {
    var t := cells[i];
    var line :| 0 <= line < |parsed| && parsed[line] == defs[t];
    assert parsed[line].cellType == t;
  }

  /** `CellDefs::load` and `generate`. A file is accepted exactly when it lists every type once; then every
      cell of the world has a line of its own in it and that line's durability, whatever was drawn. The
      rock of the skeleton stays. */
  method Generate(parsed: seq<CellDef>, g: Grid, noise: seq<Skeleton.Noise>, order: seq<nat>, budget: nat,
                  cells: array<byte>, durability: array<real>)
    returns (r: Result<seq<CellDef>, Error>, ghost skeleton: seq<byte>)
    requires cells.Length == durability.Length == g.Size()
    requires |noise| == 4 && forall k :: 0 <= k < 4 ==> |noise[k].samples| == g.W() * g.H()
    requires forall k :: 0 <= k < |order| ==> order[k] < g.chunksW * g.chunksH
    requires forall ci :: 0 <= ci < g.chunksW * g.chunksH ==> ci in order
    modifies cells, durability
    ensures r.Success? <==> Complete(parsed)
    ensures r.Failure? ==> Refused(parsed, r.error)
    ensures r.Failure? ==> cells[..] == old(cells[..]) && durability[..] == old(durability[..])
    ensures r.Success? ==> forall i :: 0 <= i < g.Size() ==> AsListed(parsed, cells[i], durability[i])
    ensures r.Success? ==> |skeleton| == g.W() * g.H()
    ensures r.Success? ==> forall x, y :: g.Has(x, y) && LaidOut(g, skeleton, x, y) != 0 ==>
              0 <= CellIndex(g, x, y) < g.Size() && cells[CellIndex(g, x, y)] == LaidOut(g, skeleton, x, y)
  {
    skeleton := [];
    r := Load(parsed);
    if r.Failure? { return; }
    var table := DurabilityTable(r.value);
    var rock;
    ghost var layers, rocky;
    rock, layers, rocky := Skeleton.GenerateSkeleton(g.W(), g.H(), noise);
    skeleton := rock;
    GenerateCells(g, rock, order, table, budget, cells, durability);
    forall i | 0 <= i < g.Size()
      ensures AsListed(parsed, cells[i], durability[i])
    {
      CellAsListed(parsed, r.value, table, cells[..], durability[..], i);
    }
  }
}
