/** `fill_sectors`: the empty cells of the skeleton are gathered component by component and filled,
    in the same grid that is still being searched. */
module FloodFill {
  import opened LittleEndian
  import opened Sequences
  import opened GridIndex
  import opened SectorFill
  import opened SectorPalette

  type Coord = (int, int)

  const SECTOR_MIN_CELLS := 50
  const GIG_SIZE_THRESHOLD := 40000

  function Dir(k: nat): Coord
    requires k < 4
  {
    [(0, 1), (0, -1), (-1, 0), (1, 0)][k]
  }

  function Neighbour(c: Coord, k: nat): Coord
    requires k < 4
  {
    (c.0 + Dir(k).0, c.1 + Dir(k).1)
  }

  /** A cell that was empty in the grid as it was. */
  ghost predicate Open(g: Grid, origin: seq<byte>, c: Coord) {
    g.Has(c.0, c.1) && |origin| == g.Size() && InPlace(g, c) && origin[CellIndex(g, c.0, c.1)] == EMPTY
  }

  /** b is n steps from a, over open cells. */
  ghost predicate Linked(g: Grid, origin: seq<byte>, a: Coord, b: Coord, n: nat)
    decreases n
  {
    if n == 0 then b == a
    else Open(g, origin, b) && exists k :: 0 <= k < 4 && Linked(g, origin, a, Neighbour(b, k), n - 1)
  }

  ghost predicate Connected(g: Grid, origin: seq<byte>, a: Coord, b: Coord) {
    exists n: nat :: Linked(g, origin, a, b, n)
  }

  /** A way of single steps, right, left, up or down, over open cells. */
  ghost predicate Way(g: Grid, origin: seq<byte>, way: seq<Coord>) {
    forall i :: 0 < i < |way| ==>
      Open(g, origin, way[i]) && Distance(way[i - 1], way[i]) == 1
  }

  function Distance(a: Coord, b: Coord): int {
    (if a.0 < b.0 then b.0 - a.0 else a.0 - b.0) + if a.1 < b.1 then b.1 - a.1 else a.1 - b.1
  }

  /** Cells are connected exactly when there is such a way from one to the other. */
  lemma ConnectedExactly(g: Grid, origin: seq<byte>, a: Coord, b: Coord)
    ensures Connected(g, origin, a, b) <==>
            exists way :: |way| > 0 && Way(g, origin, way) && way[0] == a && way[|way| - 1] == b
  {
    hide Open;
    if n: nat :| Linked(g, origin, a, b, n) {
      var way := WayOf(g, origin, a, b, n);
    }
    if way :| |way| > 0 && Way(g, origin, way) && way[0] == a && way[|way| - 1] == b {
      LinkedByWay(g, origin, way);
    }
  }

  lemma {:induction false} WayOf(g: Grid, origin: seq<byte>, a: Coord, b: Coord, n: nat) returns (way: seq<Coord>)
    requires Linked(g, origin, a, b, n)
    ensures |way| > 0 && Way(g, origin, way) && way[0] == a && way[|way| - 1] == b
    decreases n
  {
    hide Open;
    if n == 0 {
      way := [a];
    } else {
      var k :| 0 <= k < 4 && Linked(g, origin, a, Neighbour(b, k), n - 1);
      var front := WayOf(g, origin, a, Neighbour(b, k), n - 1);
      way := front + [b];
    }
  }

  lemma {:induction false} LinkedByWay(g: Grid, origin: seq<byte>, way: seq<Coord>)
    requires |way| > 0 && Way(g, origin, way)
    ensures Linked(g, origin, way[0], way[|way| - 1], |way| - 1)
    decreases way
  {
    hide Open;
    if |way| > 1 {
      var front := way[..|way| - 1];
      LinkedByWay(g, origin, front);
      var from, to := front[|front| - 1], way[|way| - 1];
      var k := Direction(to, from);
      assert Linked(g, origin, way[0], Neighbour(to, k), |way| - 2);
    }
  }

  /** A neighbour is found in one of the four directions. */
  function Direction(a: Coord, b: Coord): (k: nat)
    requires Distance(a, b) == 1
    ensures k < 4 && Neighbour(a, k) == b
  {
    if b.1 > a.1 then 0 else if b.1 < a.1 then 1 else if b.0 < a.0 then 2 else 3
  }

  /** A list of cells that is, without repetition, the 4-connected component of its first cell. */
  ghost predicate IsComponent(g: Grid, origin: seq<byte>, piece: seq<Coord>) {
    && piece != [] && Open(g, origin, piece[0]) && NoDup(piece)
    && forall c :: c in piece <==> Connected(g, origin, piece[0], c)
  }

  /** The flags mark exactly the cells of a set. */
  ghost predicate Marks(g: Grid, flags: seq<bool>, V: set<Coord>) {
    && |flags| == g.Size()
    && (forall c :: c in V ==> g.Has(c.0, c.1))
    && (forall c: Coord :: g.Has(c.0, c.1) ==> InPlace(g, c) && (flags[CellIndex(g, c.0, c.1)] <==> c in V))
  }

  /** With every open cell of the set its open neighbours are in it, too. */
  ghost predicate Closed(g: Grid, origin: seq<byte>, V: set<Coord>) {
    forall c, k :: c in V && 0 <= k < 4 && Open(g, origin, Neighbour(c, k)) ==> Neighbour(c, k) in V
  }

  /** Outside the set the grid is still as it was. */
  ghost predicate Untouched(g: Grid, origin: seq<byte>, cells: seq<byte>, V: set<Coord>) {
    && |origin| == |cells| == g.Size()
    && forall c: Coord :: g.Has(c.0, c.1) && c !in V ==>
         InPlace(g, c) && cells[CellIndex(g, c.0, c.1)] == origin[CellIndex(g, c.0, c.1)]
  }

  method Mark(g: Grid, visited: array<bool>, c: Coord, ghost V: set<Coord>)
    requires g.Has(c.0, c.1) && Marks(g, visited[..], V)
    modifies visited
    ensures Marks(g, visited[..], V + {c})
  {
    InRange(g, c.0, c.1);
    visited[CellIndex(g, c.0, c.1)] := true;
    forall d: Coord | g.Has(d.0, d.1)
      ensures InPlace(g, d) && (visited[CellIndex(g, d.0, d.1)] <==> d in V + {c})
    {
      InRange(g, d.0, d.1);
      if CellIndex(g, d.0, d.1) == CellIndex(g, c.0, c.1) {
        IndexInjective(g, c.0, c.1, d.0, d.1);
      }
    }
  }

  // ---------------------------------------------------------------- one component

  /** The width and height the source computes for a component, its own formula. */
  function Widen(e: (int, int), first: Coord, c: Coord): (int, int) {
    (if e.0 > c.0 - first.0 then e.0 else first.0 - first.1, if e.1 > c.1 - first.1 then e.1 else c.0 - first.1)
  }

  function Extent(first: Coord, comp: seq<Coord>): (int, int) {
    if comp == [] then (0, 0) else Widen(Extent(first, comp[..|comp| - 1]), first, comp[|comp| - 1])
  }

  lemma FoldStep(first: Coord, comp: seq<Coord>, c: Coord)
    ensures Extent(first, comp + [c]) == Widen(Extent(first, comp), first, c)
    ensures Depth(first, comp + [c]) == if c.1 < Depth(first, comp) then c.1 else Depth(first, comp)
  {
    assert (comp + [c])[..|comp|] == comp;
  }

  /** The smallest row of the cells and the first. */
  function Depth(first: Coord, comp: seq<Coord>): int {
    if comp == [] then first.1
    else
      var d, c := Depth(first, comp[..|comp| - 1]), comp[|comp| - 1];
      if c.1 < d then c.1 else d
  }

  lemma {:induction false} DepthIsLeast(first: Coord, comp: seq<Coord>)
    ensures Depth(first, comp) <= first.1
    ensures forall c :: c in comp ==> Depth(first, comp) <= c.1
    ensures Depth(first, comp) == first.1 || exists c :: c in comp && c.1 == Depth(first, comp)
  {
    if comp != [] {
      var front := comp[..|comp| - 1];
      DepthIsLeast(first, front);
      forall c | c in comp
        ensures Depth(first, comp) <= c.1
      {
        var i :| 0 <= i < |comp| && comp[i] == c;
        assert i == |comp| - 1 || c in front;
      }
      if Depth(first, comp) != first.1 {
        if Depth(first, comp) == Depth(first, front) {
          var c :| c in front && c.1 == Depth(first, front);
          assert c in comp;
        } else {
          assert comp[|comp| - 1] in comp;
        }
      }
    }
  }

  /** What the source takes for the width of a component does not depend on it: it is the difference of the
      coordinates of its first cell. Its height is a column less the first row. */
  lemma {:induction false} ExtentExactly(first: Coord, comp: seq<Coord>)
    requires comp != [] && comp[0] == first
    ensures Extent(first, comp).0 == first.0 - first.1
    ensures exists c :: c in comp && Extent(first, comp).1 == c.0 - first.1
  {
    var front, last := comp[..|comp| - 1], comp[|comp| - 1];
    assert last in comp;
    if |comp| > 1 {
      ExtentExactly(first, front);
      var c :| c in front && Extent(first, front).1 == c.0 - first.1;
      assert c in comp;
    } else {
      assert Extent(first, []) == (0, 0);
    }
  }

  ghost predicate Gathered(g: Grid, origin: seq<byte>, first: Coord, V: set<Coord>,
                           comp: seq<Coord>, queue: seq<Coord>) {
    && NoDup(comp + queue)
    && (forall c :: c in comp + queue ==> c !in V && Open(g, origin, c) && Connected(g, origin, first, c))
    && |comp + queue| > 0 && (comp + queue)[0] == first
  }

  /** The open neighbours of the first n directions are taken care of. */
  ghost predicate Around(g: Grid, origin: seq<byte>, W: set<Coord>, c: Coord, n: nat)
    requires n <= 4
  {
    forall k :: 0 <= k < n && Open(g, origin, Neighbour(c, k)) ==> Neighbour(c, k) in W
  }

  function Elements(s: seq<Coord>): set<Coord> {
    set c | c in s
  }

  lemma OneStep(g: Grid, origin: seq<byte>, a: Coord, b: Coord, k: nat)
    requires k < 4 && Connected(g, origin, a, b) && Open(g, origin, Neighbour(b, k))
    ensures Connected(g, origin, a, Neighbour(b, k))
  {
    var n: nat :| Linked(g, origin, a, b, n);
    var back := if k == 0 then 1 else if k == 1 then 0 else if k == 2 then 3 else 2;
    assert Neighbour(Neighbour(b, k), back) == b;
    assert Linked(g, origin, a, Neighbour(b, k), n + 1);
  }

  /** A closed set that holds a cell holds everything connected to it. */
  lemma {:induction false} ClosedHolds(g: Grid, origin: seq<byte>, W: set<Coord>, a: Coord, b: Coord, n: nat)
    requires Closed(g, origin, W) && a in W && Linked(g, origin, a, b, n)
    ensures b in W
    decreases n
  {
    if n > 0 {
      var k :| 0 <= k < 4 && Linked(g, origin, a, Neighbour(b, k), n - 1);
      hide Open, Closed;
      ClosedHolds(g, origin, W, a, Neighbour(b, k), n - 1);
      ClosedAround(g, origin, W, b, k);
    }
  }

  /** An open cell next to one of a closed set is in it. */
  lemma ClosedAround(g: Grid, origin: seq<byte>, W: set<Coord>, b: Coord, k: nat)
    requires Closed(g, origin, W) && k < 4 && Neighbour(b, k) in W && Open(g, origin, b)
    ensures b in W
  {
    hide Open;
    var c, back := Neighbour(b, k), if k == 0 then 1 else if k == 1 then 0 else if k == 2 then 3 else 2;
    assert Neighbour(c, back) == b;
  }

  /** A cell outside a closed set is not connected to any open cell in it. */
  lemma {:induction false} ClosedSeparates(g: Grid, origin: seq<byte>, V: set<Coord>, a: Coord, b: Coord, n: nat)
    requires Closed(g, origin, V) && a !in V && Open(g, origin, a) && Linked(g, origin, a, b, n)
    ensures b !in V
    decreases n
  {
    if n > 0 {
      var k :| 0 <= k < 4 && Linked(g, origin, a, Neighbour(b, k), n - 1);
      ClosedSeparates(g, origin, V, a, Neighbour(b, k), n - 1);
      LinkedOpen(g, origin, a, Neighbour(b, k), n - 1);
    }
  }

  lemma LinkedOpen(g: Grid, origin: seq<byte>, a: Coord, b: Coord, n: nat)
    requires Open(g, origin, a) && Linked(g, origin, a, b, n)
    ensures Open(g, origin, b)
  {
  }

  /** The neighbours of one cell: those open and new join the queue. */
  method Look(g: Grid, cells: array<byte>, visited: array<bool>, ghost origin: seq<byte>, ghost first: Coord,
              ghost V: set<Coord>, c: Coord, ghost comp: seq<Coord>, queue: seq<Coord>)
    returns (queue': seq<Coord>)
    requires visited != cells as object
    requires cells.Length == g.Size() && Untouched(g, origin, cells[..], V)
    requires Gathered(g, origin, first, V, comp, queue) && c in comp
    requires Marks(g, visited[..], V + Elements(comp + queue))
    modifies visited
    ensures queue <= queue' && Gathered(g, origin, first, V, comp, queue')
    ensures Marks(g, visited[..], V + Elements(comp + queue'))
    ensures Around(g, origin, V + Elements(comp + queue'), c, 4)
  {
    queue' := queue;
    for k := 0 to 4
      invariant queue <= queue' && Gathered(g, origin, first, V, comp, queue')
      invariant Marks(g, visited[..], V + Elements(comp + queue'))
      invariant Around(g, origin, V + Elements(comp + queue'), c, k)
    {
      var n := Neighbour(c, k);
      if g.Has(n.0, n.1) {
        InRange(g, n.0, n.1);
        var i := CellIndex(g, n.0, n.1);
        if !visited[i] && cells[i] == EMPTY {
          assert c in comp + queue';
          assert Open(g, origin, n);
          OneStep(g, origin, first, c, k);
          Mark(g, visited, n, V + Elements(comp + queue'));
          Join(g, origin, first, V, comp, queue', n);
          queue' := queue' + [n];
        }
      }
    }
  }

  lemma Join(g: Grid, origin: seq<byte>, first: Coord, V: set<Coord>, comp: seq<Coord>, queue: seq<Coord>, n: Coord)
    requires Gathered(g, origin, first, V, comp, queue)
    requires n !in V + Elements(comp + queue) && Open(g, origin, n) && Connected(g, origin, first, n)
    ensures Gathered(g, origin, first, V, comp, queue + [n])
    ensures V + Elements(comp + queue) + {n} == V + Elements(comp + (queue + [n]))
  {
    assert comp + (queue + [n]) == comp + queue + [n];
    NoDupAppend(comp + queue, n);
  }

  /** Midway through a search: the flags mark what was visited before, the component so far and the
      queue, and every cell of the component has been looked around. */
  ghost predicate Searching(g: Grid, flags: seq<bool>, origin: seq<byte>, first: Coord, V: set<Coord>,
                            comp: seq<Coord>, queue: seq<Coord>) {
    && Gathered(g, origin, first, V, comp, queue)
    && Marks(g, flags, V + Elements(comp + queue))
    && (forall c :: c in comp ==> Around(g, origin, V + Elements(comp + queue), c, 4))
  }

  /** The next cell of the queue joins the component and is looked around. */
  method Advance(g: Grid, cells: array<byte>, visited: array<bool>, ghost origin: seq<byte>, ghost first: Coord,
                 ghost V: set<Coord>, ghost comp: seq<Coord>, queue: seq<Coord>)
    returns (queue': seq<Coord>)
    requires visited != cells as object && queue != []
    requires cells.Length == g.Size() && Untouched(g, origin, cells[..], V)
    requires Searching(g, visited[..], origin, first, V, comp, queue)
    modifies visited
    ensures queue[1..] <= queue'
    ensures Searching(g, visited[..], origin, first, V, comp + [queue[0]], queue')
    ensures |comp| + 1 <= g.Size()
  {
    var c := queue[0];
    TakeOff(comp, queue);
    ComponentFits(g, origin, first, V, comp + [c], queue[1..]);
    ghost var W := V + Elements(comp + queue);
    queue' := Look(g, cells, visited, origin, first, V, c, comp + [c], queue[1..]);
    ghost var W' := V + Elements(comp + [c] + queue');
    assert W <= W' by {
      Grows(comp + [c], queue[1..], queue');
    }
    forall d | d in comp + [c]
      ensures Around(g, origin, W', d, 4)
    {
      if d != c {
        assert Around(g, origin, W, d, 4);
      }
    }
  }

  lemma Grows(front: seq<Coord>, a: seq<Coord>, b: seq<Coord>)
    requires a <= b
    ensures Elements(front + a) <= Elements(front + b)
  {
    forall c | c in front + a
      ensures c in front + b
    {
      var i :| 0 <= i < |front + a| && (front + a)[i] == c;
      assert (front + b)[i] == c;
    }
  }

  /** The search for one component, with the extents and the depth the source keeps beside it. */
  method Flood(g: Grid, cells: array<byte>, visited: array<bool>, ghost origin: seq<byte>,
               first: Coord, ghost V: set<Coord>)
    returns (comp: seq<Coord>, sWidth: int, sHeight: int, depth: int)
    requires visited != cells as object
    requires cells.Length == g.Size() && Untouched(g, origin, cells[..], V)
    requires Marks(g, visited[..], V) && Closed(g, origin, V)
    requires Open(g, origin, first) && first !in V
    modifies visited
    ensures IsComponent(g, origin, comp) && comp[0] == first
    ensures forall c :: c in comp ==> c !in V
    ensures Marks(g, visited[..], V + Elements(comp)) && Closed(g, origin, V + Elements(comp))
    ensures sWidth == Extent(first, comp).0 && sHeight == Extent(first, comp).1
    ensures depth == Depth(first, comp)
  {
    comp, sWidth, sHeight, depth := [], 0, 0, first.1;
    var queue := [first];
    Mark(g, visited, first, V);
    StartSearch(g, visited[..], origin, first, V);
    while queue != []
      invariant Searching(g, visited[..], origin, first, V, comp, queue)
      invariant sWidth == Extent(first, comp).0 && sHeight == Extent(first, comp).1
      invariant depth == Depth(first, comp)
      decreases g.Size() - |comp|
    {
      var c := queue[0];
      depth := if c.1 < depth then c.1 else depth;
      sWidth, sHeight := if sWidth > c.0 - first.0 then sWidth else first.0 - first.1,
                         if sHeight > c.1 - first.1 then sHeight else c.0 - first.1;
      FoldStep(first, comp, c);
      queue := Advance(g, cells, visited, origin, first, V, comp, queue);
      comp := comp + [c];
    }
    Whole(g, visited[..], origin, first, V, comp);
  }

  lemma StartSearch(g: Grid, flags: seq<bool>, origin: seq<byte>, first: Coord, V: set<Coord>)
    requires Marks(g, flags, V + {first}) && first !in V && Open(g, origin, first)
    ensures Searching(g, flags, origin, first, V, [], [first])
  {
    assert Linked(g, origin, first, first, 0);
    assert [] + [first] == [first];
    assert V + {first} == V + Elements([first]);
  }

  lemma TakeOff(comp: seq<Coord>, queue: seq<Coord>)
    requires queue != []
    ensures comp + [queue[0]] + queue[1..] == comp + queue
  {
  }

  /** A component has no more cells than the grid has places. */
  lemma ComponentFits(g: Grid, origin: seq<byte>, first: Coord, V: set<Coord>, comp: seq<Coord>, queue: seq<Coord>)
    requires Gathered(g, origin, first, V, comp, queue)
    ensures |comp| <= g.Size()
  {
    var places := seq(|comp|, i requires 0 <= i < |comp| => CellIndex(g, comp[i].0, comp[i].1));
    forall i, j | 0 <= i < j < |comp|
      ensures places[i] != places[j]
    {
      assert comp[i] in comp + queue && comp[j] in comp + queue;
      assert (comp + queue)[i] != (comp + queue)[j];
      if places[i] == places[j] {
        IndexInjective(g, comp[i].0, comp[i].1, comp[j].0, comp[j].1);
      }
    }
    forall p | p in places
      ensures p in Below(g.Size())
    {
      var i :| 0 <= i < |comp| && places[i] == p;
      assert comp[i] in comp + queue;
      InRange(g, comp[i].0, comp[i].1);
    }
    NoDupFits(places, Below(g.Size()));
  }

  /** With the queue empty, what was gathered is the component, whole and alone. */
  lemma Whole(g: Grid, flags: seq<bool>, origin: seq<byte>, first: Coord, V: set<Coord>, comp: seq<Coord>)
    requires Searching(g, flags, origin, first, V, comp, []) && Closed(g, origin, V)
    requires Open(g, origin, first) && first !in V
    ensures IsComponent(g, origin, comp) && comp[0] == first
    ensures forall c :: c in comp ==> c !in V
    ensures Marks(g, flags, V + Elements(comp)) && Closed(g, origin, V + Elements(comp))
  {
    assert comp + [] == comp;
    var W := V + Elements(comp);
    assert Closed(g, origin, W);
    forall c
      ensures c in comp <==> Connected(g, origin, first, c)
    {
      if n: nat :| Linked(g, origin, first, c, n) {
        assert first in comp;
        ClosedHolds(g, origin, W, first, c, n);
        ClosedSeparates(g, origin, V, first, c, n);
      }
    }
  }

  // ---------------------------------------------------------------- the whole grid

  ghost function Flat(pieces: seq<seq<Coord>>): seq<Coord> {
    if pieces == [] then [] else Flat(pieces[..|pieces| - 1]) + pieces[|pieces| - 1]
  }

  /** (x, y) comes before the cell the scan has reached: rows first, then columns. */
  predicate Before(c: Coord, x: int, y: int) {
    c.1 < y || (c.1 == y && c.0 < x)
  }

  /** The pieces found so far are components, do not meet, and cover all open cells already passed. */
  ghost predicate Found(g: Grid, origin: seq<byte>, pieces: seq<seq<Coord>>, V: set<Coord>) {
    && V == Elements(Flat(pieces)) && NoDup(Flat(pieces))
    && (forall i :: 0 <= i < |pieces| ==> IsComponent(g, origin, pieces[i]))
    && (forall c :: c in V ==> Open(g, origin, c))
    && Closed(g, origin, V)
  }

  ghost predicate Passed(g: Grid, origin: seq<byte>, V: set<Coord>, x: int, y: int) {
    forall c: Coord :: Open(g, origin, c) && Before(c, x, y) ==> c in V
  }

  /** No cell that was not empty has changed. */
  ghost predicate Kept(origin: seq<byte>, cells: seq<byte>) {
    |origin| == |cells| && forall i :: 0 <= i < |origin| && origin[i] != EMPTY ==> cells[i] == origin[i]
  }

  ghost predicate Waiting(g: Grid, cells: seq<byte>, V: set<Coord>, acc: seq<Coord>) {
    |cells| == g.Size() && forall c :: c in acc ==>
      c in V && g.Has(c.0, c.1) && InPlace(g, c) && cells[CellIndex(g, c.0, c.1)] == EMPTY
  }

  ghost predicate OwnDurability(table: seq<real>, cells: seq<byte>, durability: seq<real>) {
    |table| == 256 && |cells| == |durability| && forall i :: 0 <= i < |cells| ==> durability[i] == table[cells[i]]
  }

  lemma FoundMore(g: Grid, origin: seq<byte>, pieces: seq<seq<Coord>>, V: set<Coord>, comp: seq<Coord>)
    requires Found(g, origin, pieces, V)
    requires IsComponent(g, origin, comp) && (forall c :: c in comp ==> c !in V)
    requires Closed(g, origin, V + Elements(comp))
    ensures Found(g, origin, pieces + [comp], V + Elements(comp))
  {
    var more := pieces + [comp];
    assert more[..|pieces|] == pieces;
    var a, all := Flat(pieces), Flat(pieces) + comp;
    assert Flat(more) == all;
    forall i, j | 0 <= i < j < |all|
      ensures all[i] != all[j]
    {
      if i < |a| <= j {
        assert all[i] in V && all[j] in comp;
      }
    }
    forall c | c in comp
      ensures Open(g, origin, c)
    {
      var n: nat :| Linked(g, origin, comp[0], c, n);
    }
  }

  lemma {:induction false} PieceInFlat(pieces: seq<seq<Coord>>, i: nat)
    requires i < |pieces|
    ensures forall c :: c in pieces[i] ==> c in Flat(pieces)
  {
    if i < |pieces| - 1 {
      PieceInFlat(pieces[..|pieces| - 1], i);
    }
  }

  /** A cell that does not belong to a list of cells has its own place elsewhere. */
  lemma NotInSector(g: Grid, comp: seq<Coord>, c: Coord)
    requires g.Has(c.0, c.1) && c !in comp && forall k :: 0 <= k < |comp| ==> g.Has(comp[k].0, comp[k].1)
    ensures InPlace(g, c) && !InSector(g, comp, CellIndex(g, c.0, c.1))
  {
    InRange(g, c.0, c.1);
    if InSector(g, comp, CellIndex(g, c.0, c.1)) {
      var k :| 0 <= k < |comp| && CellIndex(g, comp[k].0, comp[k].1) == CellIndex(g, c.0, c.1);
      IndexInjective(g, comp[k].0, comp[k].1, c.0, c.1);
    }
  }

  /** What a fill of gathered cells leaves alone. */
  lemma FillKeeps(g: Grid, origin: seq<byte>, V: set<Coord>, acc: seq<Coord>, args: seq<byte>, table: seq<real>,
                  cells0: seq<byte>, durability0: seq<real>, cells: seq<byte>, durability: seq<real>)
    requires |origin| == |cells0| == |cells| == |durability0| == |durability| == g.Size() && |table| == 256
    requires forall c :: c in V ==> Open(g, origin, c)
    requires Untouched(g, origin, cells0, V) && Kept(origin, cells0) && Waiting(g, cells0, V, acc)
    requires OwnDurability(table, cells0, durability0)
    requires FillOf(g, acc, args, table, cells0, durability0, cells, durability)
    ensures Untouched(g, origin, cells, V) && Kept(origin, cells) && OwnDurability(table, cells, durability)
  {
    forall c: Coord | g.Has(c.0, c.1) && c !in V
      ensures InPlace(g, c) && cells[CellIndex(g, c.0, c.1)] == origin[CellIndex(g, c.0, c.1)]
    {
      NotInSector(g, acc, c);
    }
  }

  /** Every piece has gone, whole and in order, into a batch of at least fifty cells handed to a fill,
      or is still waiting. */
  ghost predicate Batched(pieces: seq<seq<Coord>>, batches: seq<seq<Coord>>, acc: seq<Coord>) {
    && Flat(batches) + acc == Flat(pieces)
    && forall i :: 0 <= i < |batches| ==> |batches[i]| >= SECTOR_MIN_CELLS
  }

  lemma BatchedMore(pieces: seq<seq<Coord>>, batches: seq<seq<Coord>>, acc: seq<Coord>, comp: seq<Coord>)
    requires Batched(pieces, batches, acc)
    ensures Batched(pieces + [comp], batches, acc + comp)
    ensures |acc + comp| >= SECTOR_MIN_CELLS ==> Batched(pieces + [comp], batches + [acc + comp], [])
  {
    assert (pieces + [comp])[..|pieces|] == pieces;
    assert (batches + [acc + comp])[..|batches|] == batches;
    assert Flat(batches) + (acc + comp) == Flat(batches) + acc + comp;
    assert Flat(batches) + (acc + comp) + [] == Flat(batches) + (acc + comp);
  }

  // ---------------------------------------------------------------- what becomes of a batch

  ghost predicate Placed(g: Grid, cells: seq<byte>, batch: seq<Coord>) {
    |cells| == g.Size() && forall k :: 0 <= k < |batch| ==> g.Has(batch[k].0, batch[k].1) && InPlace(g, batch[k])
  }

  function At(g: Grid, cells: seq<byte>, c: Coord): byte
    requires InPlace(g, c) && |cells| == g.Size()
  {
    cells[CellIndex(g, c.0, c.1)]
  }

  /** One fill: the depth tier, the types it was made with, how it ended and the tries it took. */
  datatype Fill = Fill(tier: nat, args: seq<byte>, outcome: Outcome, tries: seq<Try>)

  /** The types were chosen for the tier, and the tries were made with them for so many cells. */
  ghost predicate Made(f: Fill, n: nat) {
    && (f.args == CrystalPalette(f.tier, true) || exists m :: Mixed(f.tier, f.args, m))
    && f.outcome != NoTypes && EndedSomehow(f.args, f.tries, f.outcome, n)
  }

  /** The types of the accepted try, with all that it left empty filled up in batches of up to forty
      thousand cells. */
  ghost predicate Result(f: Fill, types: seq<byte>) {
    && f.tries != []
    && var last := f.tries[|f.tries| - 1];
       |last.vs| == |last.before| == |types| && FilledUp(f.args, |types| <= GIG_SIZE_THRESHOLD, TypesOf(last), types)
  }

  /** A batch holds the result of its fill, and is empty if no try was accepted. */
  ghost predicate Fate(g: Grid, cells: seq<byte>, batch: seq<Coord>, f: Fill) {
    && Placed(g, cells, batch) && Made(f, |batch|)
    && exists types ::
         Holds(g, cells, batch, types) && (if f.outcome == Filled then Result(f, types) else AllEmpty(types))
  }

  ghost predicate Holds(g: Grid, cells: seq<byte>, batch: seq<Coord>, types: seq<byte>)
    requires Placed(g, cells, batch)
  {
    |types| == |batch| && forall k :: 0 <= k < |batch| ==> At(g, cells, batch[k]) == types[k]
  }

  ghost predicate AllEmpty(types: seq<byte>) {
    forall k :: 0 <= k < |types| ==> types[k] == EMPTY
  }

  /** The batch ends with a whole component, and the tier is that of the component's top row. */
  ghost predicate TierOf(pieces: seq<seq<Coord>>, batch: seq<Coord>, tier: nat) {
    exists i :: 0 <= i < |pieces| && EndsIn(batch, pieces[i]) && tier == DepthTier(pieces[i][0].1)
  }

  ghost predicate EndsIn(batch: seq<Coord>, piece: seq<Coord>) {
    piece != [] && |piece| <= |batch| && batch[|batch| - |piece|..] == piece
  }

  ghost predicate Fates(g: Grid, cells: seq<byte>, pieces: seq<seq<Coord>>, batches: seq<seq<Coord>>,
                        fills: seq<Fill>) {
    && |fills| == |batches|
    && forall b :: 0 <= b < |batches| ==>
         Fate(g, cells, batches[b], fills[b]) && TierOf(pieces, batches[b], fills[b].tier)
  }

  /** Only cells of the list may have changed. */
  ghost predicate SameOutside(g: Grid, acc: seq<Coord>, cells0: seq<byte>, cells: seq<byte>) {
    && |cells0| == |cells| == g.Size()
    && forall c: Coord :: g.Has(c.0, c.1) && InPlace(g, c) && c !in acc ==> At(g, cells, c) == At(g, cells0, c)
  }

  lemma FateStays(g: Grid, acc: seq<Coord>, cells0: seq<byte>, cells: seq<byte>, batch: seq<Coord>, f: Fill)
    requires Fate(g, cells0, batch, f) && SameOutside(g, acc, cells0, cells)
    requires forall c :: c in batch ==> c !in acc
    ensures Fate(g, cells, batch, f)
  {
    hide Made, Result;
    var types :| Holds(g, cells0, batch, types) && (if f.outcome == Filled then Result(f, types) else AllEmpty(types));
    forall k | 0 <= k < |batch|
      ensures At(g, cells, batch[k]) == At(g, cells0, batch[k])
    {
      assert batch[k] in batch;
    }
    assert Holds(g, cells, batch, types);
  }

  /** Batches handed over before and cells gathered since do not meet. */
  lemma BatchApart(batches: seq<seq<Coord>>, acc: seq<Coord>, b: nat)
    requires b < |batches| && NoDup(Flat(batches) + acc)
    ensures forall c :: c in batches[b] ==> c !in acc
  {
    hide Flat, NoDup;
    PieceInFlat(batches, b);
    NoDupParts(Flat(batches), acc);
  }

  lemma FatesStay(g: Grid, acc: seq<Coord>, cells0: seq<byte>, cells: seq<byte>, pieces: seq<seq<Coord>>,
                  batches: seq<seq<Coord>>, fills: seq<Fill>)
    requires Fates(g, cells0, pieces, batches, fills) && SameOutside(g, acc, cells0, cells)
             && NoDup(Flat(batches) + acc)
    ensures Fates(g, cells, pieces, batches, fills)
  {
    hide Fate;
    forall b | 0 <= b < |batches|
      ensures Fate(g, cells, batches[b], fills[b])
    {
      BatchApart(batches, acc, b);
      FateStays(g, acc, cells0, cells, batches[b], fills[b]);
    }
  }

  /** One more piece, and possibly one more batch that it completes. */
  lemma FatesMore(g: Grid, cells: seq<byte>, pieces: seq<seq<Coord>>, comp: seq<Coord>, batches: seq<seq<Coord>>,
                  fills: seq<Fill>, acc: seq<Coord>)
    requires Fates(g, cells, pieces, batches, fills) && comp != []
    ensures Fates(g, cells, pieces + [comp], batches, fills)
    ensures forall f :: Fate(g, cells, acc + comp, f) && f.tier == DepthTier(comp[0].1) ==>
              Fates(g, cells, pieces + [comp], batches + [acc + comp], fills + [f])
  {
    hide Fate;
    var more := pieces + [comp];
    forall b | 0 <= b < |batches|
      ensures TierOf(more, batches[b], fills[b].tier)
    {
      var i :| 0 <= i < |pieces| && EndsIn(batches[b], pieces[i]) && fills[b].tier == DepthTier(pieces[i][0].1);
      assert more[i] == pieces[i];
    }
    assert EndsIn(acc + comp, more[|pieces|]);
    assert TierOf(more, acc + comp, DepthTier(comp[0].1));
  }

  /** What one fill does to the cells it was given, which were all empty. */
  lemma FillFate(g: Grid, V: set<Coord>, acc: seq<Coord>, f: Fill, table: seq<real>,
                 cells0: seq<byte>, durability0: seq<real>, cells: seq<byte>, durability: seq<real>)
    requires |cells0| == |cells| == |durability0| == |durability| == g.Size() && |table| == 256 && NoDup(acc)
    requires Waiting(g, cells0, V, acc) && FillOf(g, acc, f.args, table, cells0, durability0, cells, durability)
    requires Made(f, |acc|) && (f.outcome != Filled ==> cells == cells0)
    requires f.outcome == Filled ==> Shows(g, acc, f.args, |acc| <= GIG_SIZE_THRESHOLD, f.tries, cells0, cells)
    ensures Fate(g, cells, acc, f) && SameOutside(g, acc, cells0, cells)
  {
    hide Made;
    forall k | 0 <= k < |acc|
      ensures g.Has(acc[k].0, acc[k].1) && InPlace(g, acc[k]) && At(g, cells0, acc[k]) == EMPTY
    {
      assert acc[k] in acc;
    }
    forall c: Coord | g.Has(c.0, c.1) && InPlace(g, c) && c !in acc
      ensures At(g, cells, c) == At(g, cells0, c)
    {
      NotInSector(g, acc, c);
    }
    if f.outcome == Filled {
      ResultShown(g, acc, f, cells0, cells);
    } else {
      var none := seq(|acc|, _ => EMPTY);
      assert Holds(g, cells, acc, none);
    }
  }

  lemma ResultShown(g: Grid, acc: seq<Coord>, f: Fill, cells0: seq<byte>, cells: seq<byte>)
    requires |cells0| == |cells| == g.Size() && Placed(g, cells, acc)
    requires forall k :: 0 <= k < |acc| ==> At(g, cells0, acc[k]) == EMPTY
    requires Shows(g, acc, f.args, |acc| <= GIG_SIZE_THRESHOLD, f.tries, cells0, cells)
    ensures exists types :: Holds(g, cells, acc, types) && Result(f, types)
  {
    var last := f.tries[|f.tries| - 1];
    var types :| FilledUp(f.args, |acc| <= GIG_SIZE_THRESHOLD, TypesOf(last), types)
                 && Written(g, acc, types, cells0, cells, |acc|);
    hide FilledUp;
    assert |types| == |acc|;
    forall k | 0 <= k < |acc|
      ensures At(g, cells, acc[k]) == types[k]
    {
      assert At(g, cells0, acc[k]) == EMPTY;
    }
    assert Holds(g, cells, acc, types) && Result(f, types);
  }

  ghost predicate Known(cells: seq<byte>) {
    forall i :: 0 <= i < |cells| ==> cells[i] < 126
  }

  lemma FillKnown(g: Grid, acc: seq<Coord>, args: seq<byte>, tier: nat, table: seq<real>, cells0: seq<byte>,
                  durability0: seq<real>, cells: seq<byte>, durability: seq<real>)
    requires |cells0| == |cells| == |durability0| == |durability| == g.Size() && |table| == 256
    requires FillOf(g, acc, args, table, cells0, durability0, cells, durability) && Known(cells0)
    requires forall i :: 0 <= i < |args| ==> InPalette(tier, args[i])
    ensures Known(cells)
  {
    forall i | 0 <= i < |args|
      ensures args[i] < 126
    {
      InPaletteKnown(tier, args[i]);
    }
  }

  // ---------------------------------------------------------------- batches by row

  /** The types of a row: its crystals alone, or a choice of rocks followed by a choice of crystals. */
  ghost predicate FromRow(row: int, args: seq<byte>) {
    || args == PureCrystals(row)
    || (NoDup(args) && exists m :: RocksThenCrystals(row, args, m))
  }

  ghost predicate RocksThenCrystals(row: int, args: seq<byte>, m: nat) {
    && 1 <= m < |args| && (forall i :: 0 <= i < m ==> RockAt(row, args[i]))
    && (forall i :: m <= i < |args| ==> CrystalAt(row, args[i]))
  }

  /** Every cell of the batch is empty or has one of the types. None is empty if the fill came to its end and
      the batch has no more than forty thousand cells, all are if it did not. */
  ghost predicate ByRow(g: Grid, cells: seq<byte>, batch: seq<Coord>, row: int, f: Fill) {
    && Placed(g, cells, batch) && FromRow(row, f.args)
    && (forall k :: 0 <= k < |batch| ==> At(g, cells, batch[k]) == 0 || At(g, cells, batch[k]) in f.args)
    && (f.outcome == Filled && |batch| <= 40000 ==> forall k :: 0 <= k < |batch| ==> At(g, cells, batch[k]) != 0)
    && (f.outcome != Filled ==> forall k :: 0 <= k < |batch| ==> At(g, cells, batch[k]) == 0)
  }

  /** Each batch has at least fifty cells, ends with a component, and is filled by the row of that component. */
  ghost predicate ByRows(g: Grid, cells: seq<byte>, pieces: seq<seq<Coord>>, batches: seq<seq<Coord>>,
                         fills: seq<Fill>) {
    && |fills| == |batches|
    && forall b :: 0 <= b < |batches| ==>
         |batches[b]| >= 50
         && exists i :: 0 <= i < |pieces| && EndsIn(batches[b], pieces[i])
                        && ByRow(g, cells, batches[b], pieces[i][0].1, fills[b])
  }

  lemma MadeFromRow(f: Fill, n: nat, row: int)
    requires Made(f, n) && f.tier == DepthTier(row)
    ensures FromRow(row, f.args)
    ensures forall i :: 0 <= i < |f.args| ==> f.args[i] != 0
  {
    hide TypesPalette, CrystalPalette, DepthTier, RockAt, CrystalAt, PureCrystals, EndedSomehow;
    forall t
      ensures t in TypesPalette(f.tier) <==> RockAt(row, t)
      ensures t in CrystalPalette(f.tier, false) <==> CrystalAt(row, t)
    {
      PalettesByRow(row, t);
    }
    PalettesByRow(row, 0);
    PalettesUsable(f.tier);
    if m :| Mixed(f.tier, f.args, m) {
      assert RocksThenCrystals(row, f.args, m);
    }
  }

  lemma FateByRow(g: Grid, cells: seq<byte>, batch: seq<Coord>, f: Fill, row: int)
    requires Fate(g, cells, batch, f) && f.tier == DepthTier(row)
    ensures ByRow(g, cells, batch, row, f)
  {
    MadeFromRow(f, |batch|, row);
    hide FromRow, Made, DepthTier, Log;
    var types :| Holds(g, cells, batch, types) && (if f.outcome == Filled then Result(f, types) else AllEmpty(types));
    if f.outcome == Filled {
      ResultFromArgs(f, |batch|, types);
    }
  }

  lemma ResultFromArgs(f: Fill, n: nat, types: seq<byte>)
    requires Made(f, n) && f.outcome == Filled && |types| == n && Result(f, types)
    ensures forall k :: 0 <= k < n ==> types[k] == EMPTY || types[k] in f.args
    ensures n <= 40000 ==> forall k :: 0 <= k < n ==> types[k] in f.args
  {
    hide Log, Mixed, CrystalPalette, Tried;
    var after :| |after| == n && Ended(f.args, f.tries, f.outcome, after);
    LogFromArgs(f.args, n, f.tries, |f.tries| - 1);
    if n <= 40000 {
      UpFromArgs(f.args, TypesOf(f.tries[|f.tries| - 1]), types);
    }
  }

  lemma FatesByRows(g: Grid, cells: seq<byte>, pieces: seq<seq<Coord>>, batches: seq<seq<Coord>>, fills: seq<Fill>,
                    rest: seq<Coord>)
    requires Batched(pieces, batches, rest) && Fates(g, cells, pieces, batches, fills)
    ensures ByRows(g, cells, pieces, batches, fills)
  {
    hide ByRow, Fate, DepthTier;
    forall b | 0 <= b < |batches|
      ensures exists i :: 0 <= i < |pieces| && EndsIn(batches[b], pieces[i])
                          && ByRow(g, cells, batches[b], pieces[i][0].1, fills[b])
    {
      assert Fate(g, cells, batches[b], fills[b]) && TierOf(pieces, batches[b], fills[b].tier);
      var i :| 0 <= i < |pieces| && EndsIn(batches[b], pieces[i]) && fills[b].tier == DepthTier(pieces[i][0].1);
      FateByRow(g, cells, batches[b], fills[b], pieces[i][0].1);
    }
  }

  // ---------------------------------------------------------------- the scan

  /** What the scan keeps between cells. */
  ghost predicate ScanInv(g: Grid, origin: seq<byte>, table: seq<real>, cells: seq<byte>, durability: seq<real>,
                          flags: seq<bool>, pieces: seq<seq<Coord>>, V: set<Coord>, acc: seq<Coord>) {
    && |origin| == |cells| == |durability| == g.Size()
    && Found(g, origin, pieces, V) && Marks(g, flags, V)
    && Untouched(g, origin, cells, V) && Kept(origin, cells) && OwnDurability(table, cells, durability)
    && Waiting(g, cells, V, acc) && |acc| < SECTOR_MIN_CELLS && Known(cells)
  }

  /** The gathered cells are filled once there are fifty of them, with types of the depth tier. */
  method FillGathered(g: Grid, cells: array<byte>, durability: array<real>, table: seq<real>, acc: seq<Coord>,
                      depth: int, budget: nat, ghost origin: seq<byte>, ghost V: set<Coord>)
    returns (ghost f: Fill)
    requires NoDup(acc)
    requires |origin| == cells.Length == durability.Length == g.Size() && |table| == 256
    requires forall c :: c in V ==> Open(g, origin, c)
    requires Untouched(g, origin, cells[..], V) && Kept(origin, cells[..]) && Waiting(g, cells[..], V, acc)
    requires OwnDurability(table, cells[..], durability[..]) && Known(cells[..])
    modifies cells, durability
    ensures Untouched(g, origin, cells[..], V) && Kept(origin, cells[..])
    ensures OwnDurability(table, cells[..], durability[..]) && Known(cells[..])
    ensures Fate(g, cells[..], acc, f) && f.tier == DepthTier(depth) && SameOutside(g, acc, old(cells[..]), cells[..])
  {
    var tier := DepthTier(depth);
    var args := GenerateInsides(tier);
    ghost var cells0, durability0 := cells[..], durability[..];
    var outcome;
    ghost var tries;
    outcome, tries := FillSector(g, cells, durability, table, acc, args, |acc| <= GIG_SIZE_THRESHOLD, budget);
    f := Fill(tier, args, outcome, tries);
    hide DepthTier, InPalette, FillOf, Waiting, Untouched, Kept, OwnDurability;
    hide EndedSomehow, Shows, Mixed, CrystalPalette;
    FillKeeps(g, origin, V, acc, args, table, cells0, durability0, cells[..], durability[..]);
    FillFate(g, V, acc, f, table, cells0, durability0, cells[..], durability[..]);
    FillKnown(g, acc, args, tier, table, cells0, durability0, cells[..], durability[..]);
  }

  /** One cell of the scan. A cell not yet seen and still empty starts a component, and its row is
      the depth of that component. */
  method ScanCell(g: Grid, cells: array<byte>, durability: array<real>, table: seq<real>, visited: array<bool>,
                  x: nat, y: nat, acc: seq<Coord>, budget: nat, ghost origin: seq<byte>, ghost pieces: seq<seq<Coord>>,
                  ghost batches: seq<seq<Coord>>, ghost fills: seq<Fill>, ghost V: set<Coord>)
    returns (acc': seq<Coord>, ghost pieces': seq<seq<Coord>>, ghost batches': seq<seq<Coord>>, ghost fills': seq<Fill>,
             ghost V': set<Coord>)
    requires g.Has(x, y) && visited != cells as object && visited != durability as object
    requires cells.Length == durability.Length == g.Size()
    requires ScanInv(g, origin, table, cells[..], durability[..], visited[..], pieces, V, acc)
    requires Passed(g, origin, V, x, y) && Batched(pieces, batches, acc) && Fates(g, cells[..], pieces, batches, fills)
    modifies cells, durability, visited
    ensures ScanInv(g, origin, table, cells[..], durability[..], visited[..], pieces', V', acc')
    ensures Passed(g, origin, V', x + 1, y) && Batched(pieces', batches', acc')
    ensures Fates(g, cells[..], pieces', batches', fills')
  {
    hide Fates, Fate, SameOutside, Known;
    acc', pieces', batches', fills', V' := acc, pieces, batches, fills, V;
    InRange(g, x, y);
    var i := CellIndex(g, x, y);
    if visited[i] || cells[i] != EMPTY {
      PassedOne(g, origin, cells[..], visited[..], V, x, y);
      return;
    }
    var comp, sWidth, sHeight, depth := Flood(g, cells, visited, origin, (x, y), V);
    V' := V + Elements(comp);
    pieces' := pieces + [comp];
    FoundMore(g, origin, pieces, V, comp);
    TopRow(g, origin, V, (x, y), comp);
    assert depth == y == comp[0].1;
    PassedComponent(g, origin, V, comp, x, y);
    acc' := acc + comp;
    BatchedMore(pieces, batches, acc, comp);
    WaitingMore(g, origin, cells[..], V, acc, comp);
    FatesMore(g, cells[..], pieces, comp, batches, fills, acc);
    if |acc'| >= SECTOR_MIN_CELLS {
      ghost var before := cells[..];
      GatheredOnce(pieces', batches, acc');
      ghost var f := FillGathered(g, cells, durability, table, acc', depth, budget, origin, V');
      FatesStay(g, acc', before, cells[..], pieces, batches, fills);
      FatesMore(g, cells[..], pieces, comp, batches, fills, acc);
      batches' := batches + [acc'];
      fills' := fills + [f];
      acc' := [];
    }
  }

  /** Cells gathered from components are gathered once. */
  lemma GatheredOnce(pieces: seq<seq<Coord>>, batches: seq<seq<Coord>>, acc: seq<Coord>)
    requires Batched(pieces, batches, acc) && NoDup(Flat(pieces))
    ensures NoDup(acc)
  {
    NoDupParts(Flat(batches), acc);
  }

  lemma PassedOne(g: Grid, origin: seq<byte>, cells: seq<byte>, flags: seq<bool>, V: set<Coord>, x: nat, y: nat)
    requires g.Has(x, y) && Marks(g, flags, V) && Untouched(g, origin, cells, V) && Passed(g, origin, V, x, y)
    requires InPlace(g, (x, y)) && (flags[CellIndex(g, x, y)] || cells[CellIndex(g, x, y)] != EMPTY)
    ensures Passed(g, origin, V, x + 1, y)
  {
    forall c: Coord | Open(g, origin, c) && Before(c, x + 1, y)
      ensures c in V
    {
      if !Before(c, x, y) {
        assert c == (x, y);
      }
    }
  }

  lemma PassedComponent(g: Grid, origin: seq<byte>, V: set<Coord>, comp: seq<Coord>, x: nat, y: nat)
    requires Passed(g, origin, V, x, y) && (x, y) in comp
    ensures Passed(g, origin, V + Elements(comp), x + 1, y)
  {
    forall c: Coord | Open(g, origin, c) && Before(c, x + 1, y)
      ensures c in V + Elements(comp)
    {
      if !Before(c, x, y) {
        assert c == (x, y);
      }
    }
  }

  /** The scan meets a component in its top row: the depth the source tracks is the row it started
      from. */
  lemma TopRow(g: Grid, origin: seq<byte>, V: set<Coord>, first: Coord, comp: seq<Coord>)
    requires IsComponent(g, origin, comp) && comp[0] == first && Passed(g, origin, V, first.0, first.1)
    requires forall c :: c in comp ==> c !in V
    ensures Depth(first, comp) == first.1
  {
    DepthIsLeast(first, comp);
    forall c | c in comp
      ensures c.1 >= first.1
    {
      var n: nat :| Linked(g, origin, first, c, n);
      LinkedOpen(g, origin, first, c, n);
      assert !Before(c, first.0, first.1);
    }
  }

  lemma WaitingMore(g: Grid, origin: seq<byte>, cells: seq<byte>, V: set<Coord>, acc: seq<Coord>, comp: seq<Coord>)
    requires Waiting(g, cells, V, acc) && Untouched(g, origin, cells, V) && IsComponent(g, origin, comp)
    requires forall c :: c in comp ==> c !in V
    ensures Waiting(g, cells, V + Elements(comp), acc + comp)
    ensures Untouched(g, origin, cells, V + Elements(comp))
  {
    forall c | c in comp
      ensures g.Has(c.0, c.1) && InPlace(g, c) && cells[CellIndex(g, c.0, c.1)] == EMPTY
    {
      var n: nat :| Linked(g, origin, comp[0], c, n);
      LinkedOpen(g, origin, comp[0], c, n);
    }
  }

  /** `fill_sectors`. The pieces found are exactly the 4-connected components of the cells that were
      empty at the start, each found once, though fills change the grid between searches; no cell
      that was not empty changes; every batch of pieces ends empty or filled with types of the depth of
      its last piece; and fewer than fifty gathered cells are left over. */
  method FillSectors(g: Grid, cells: array<byte>, durability: array<real>, table: seq<real>, budget: nat)
    returns (ghost pieces: seq<seq<Coord>>, ghost batches: seq<seq<Coord>>, ghost fills: seq<Fill>, rest: seq<Coord>)
    requires cells.Length == durability.Length == g.Size()
    requires OwnDurability(table, cells[..], durability[..]) && Known(cells[..])
    modifies cells, durability
    ensures forall i :: 0 <= i < |pieces| ==> IsComponent(g, old(cells[..]), pieces[i])
    ensures NoDup(Flat(pieces)) && forall c :: c in Flat(pieces) <==> Open(g, old(cells[..]), c)
    ensures Kept(old(cells[..]), cells[..])
    ensures OwnDurability(table, cells[..], durability[..]) && Known(cells[..])
    ensures Batched(pieces, batches, rest) && Fates(g, cells[..], pieces, batches, fills)
    ensures |rest| < 50 && Waiting(g, cells[..], Elements(Flat(pieces)), rest)
    ensures ByRows(g, cells[..], pieces, batches, fills)
  {
    ghost var origin := cells[..];
    var visited := new bool[g.Size()](_ => false);
    ghost var V: set<Coord> := {};
    pieces, batches, fills, rest := [], [], [], [];
    StartScan(g, origin, visited[..]);
    for y := 0 to g.H()
      invariant ScanInv(g, origin, table, cells[..], durability[..], visited[..], pieces, V, rest)
      invariant Passed(g, origin, V, 0, y) && Batched(pieces, batches, rest)
      invariant Fates(g, cells[..], pieces, batches, fills)
    {
      hide Fates, Known;
      for x := 0 to g.W()
        invariant ScanInv(g, origin, table, cells[..], durability[..], visited[..], pieces, V, rest)
        invariant Passed(g, origin, V, x, y) && Batched(pieces, batches, rest)
        invariant Fates(g, cells[..], pieces, batches, fills)
      {
        rest, pieces, batches, fills, V := ScanCell(g, cells, durability, table, visited, x, y, rest, budget,
                                                    origin, pieces, batches, fills, V);
      }
    }
    FatesByRows(g, cells[..], pieces, batches, fills, rest);
  }

  lemma StartScan(g: Grid, origin: seq<byte>, flags: seq<bool>)
    requires |origin| == |flags| == g.Size() && forall i :: 0 <= i < |flags| ==> !flags[i]
    ensures Found(g, origin, [], {}) && Marks(g, flags, {}) && Untouched(g, origin, origin, {})
  {
    forall c: Coord | g.Has(c.0, c.1)
      ensures InPlace(g, c)
    {
      InRange(g, c.0, c.1);
    }
  }

  // ---------------------------------------------------------------- the whole world

  /** Layout and filling together: rock of the skeleton stays where it is, every cell has the durability of
      its own type, and every type is one the cell table defines. */
  method GenerateCells(g: Grid, skeleton: seq<byte>, order: seq<nat>, table: seq<real>, budget: nat, cells: array<byte>,
                       durability: array<real>)
    requires |skeleton| == g.W() * g.H() && |table| == 256 && Known(skeleton)
    requires cells.Length == durability.Length == g.Size()
    requires forall k :: 0 <= k < |order| ==> order[k] < g.chunksW * g.chunksH
    requires forall ci :: 0 <= ci < g.chunksW * g.chunksH ==> ci in order
    modifies cells, durability
    ensures OwnDurability(table, cells[..], durability[..]) && Known(cells[..])
    ensures forall x, y :: g.Has(x, y) && LaidOut(g, skeleton, x, y) != EMPTY ==>
              InPlace(g, (x, y)) && cells[CellIndex(g, x, y)] == LaidOut(g, skeleton, x, y)
  {
    LayOut(g, skeleton, table, order, cells, durability);
    forall i | 0 <= i < g.Size()
      ensures durability[i] == table[cells[i]] && cells[i] < 126
    {
      IndexOfPlace(g, i);
      var (x, y) := Place(g, i);
      assert g.Has(x, y) && CellIndex(g, x, y) == i;
      ChunkBound(g.W(), g.H(), x, y);
    }
    ghost var origin := cells[..];
    var rest;
    ghost var pieces, batches, fills;
    pieces, batches, fills, rest := FillSectors(g, cells, durability, table, budget);
    forall x, y | g.Has(x, y) && LaidOut(g, skeleton, x, y) != EMPTY
      ensures InPlace(g, (x, y)) && cells[CellIndex(g, x, y)] == LaidOut(g, skeleton, x, y)
    {
      InRange(g, x, y);
      assert origin[CellIndex(g, x, y)] == LaidOut(g, skeleton, x, y);
    }
  }
}
