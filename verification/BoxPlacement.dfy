/** `pick_box_coord`: where a box goes when its own cell is taken. A breadth-first search that
    stops at the first empty neighbour and gives up after a hundred expansions. */
module BoxPlacement {
  import opened Wrappers
  import opened Sequences
  import opened Ways

  const CAP := 100

  function Dir(k: nat): Coord
    requires k < 4
  {
    [(0, 1), (1, 0), (-1, 0), (0, -1)][k]
  }

  function Neighbour(c: Coord, k: nat): Coord
    requires k < 4
  {
    (c.0 + Dir(k).0, c.1 + Dir(k).1)
  }

  /** c can be reached from start in exactly n steps, every step onto a valid cell. */
  predicate Reaches(valid: Coord -> bool, start: Coord, c: Coord, n: nat)
    decreases n
  {
    if n == 0 then c == start
    else valid(c) && exists k :: 0 <= k < 4 && Reaches(valid, start, Neighbour(c, k), n - 1)
  }

  /** The cell a box may go to. */
  predicate Free(valid: Coord -> bool, empty: Coord -> bool, c: Coord) {
    valid(c) && empty(c)
  }

  function Manhattan(a: Coord, b: Coord): nat {
    (if a.0 < b.0 then b.0 - a.0 else a.0 - b.0) + (if a.1 < b.1 then b.1 - a.1 else a.1 - b.1)
  }

  lemma StepBack(c: Coord, k: nat)
    requires k < 4
    ensures Neighbour(Neighbour(c, k), 3 - k) == c
  {
  }

  lemma ReachesNeighbour(valid: Coord -> bool, start: Coord, c: Coord, n: nat, k: nat)
    requires k < 4 && Reaches(valid, start, c, n) && valid(Neighbour(c, k))
    ensures Reaches(valid, start, Neighbour(c, k), n + 1)
  {
    StepBack(c, k);
    assert Neighbour(Neighbour(c, k), 3 - k) == c;
  }

  lemma {:induction false} ReachesFar(valid: Coord -> bool, start: Coord, c: Coord, n: nat)
    requires Reaches(valid, start, c, n)
    ensures Manhattan(start, c) <= n
    decreases n
  {
    if n > 0 {
      var k :| 0 <= k < 4 && Reaches(valid, start, Neighbour(c, k), n - 1);
      ReachesFar(valid, start, Neighbour(c, k), n - 1);
    }
  }

  /** On an open plane steps are as good as distance. */
  lemma {:induction false} OpenPlane(valid: Coord -> bool, start: Coord, c: Coord)
    requires forall d :: valid(d)
    ensures Reaches(valid, start, c, Manhattan(start, c))
    decreases Manhattan(start, c)
  {
    if c != start {
      var k := if c.0 < start.0 then 1 else if c.0 > start.0 then 2 else if c.1 < start.1 then 0 else 3;
      assert Manhattan(start, Neighbour(c, k)) == Manhattan(start, c) - 1;
      OpenPlane(valid, start, Neighbour(c, k));
    }
  }

  // ---------------------------------------------------------------- the state of the search

  /** Visited cells with the number of steps to each, those already expanded in order, and the
      queue of those still to expand. */
  datatype Search = Search(dist: map<Coord, nat>, done: seq<Coord>, queue: seq<Coord>)

  /** Cells seen so far are valid, none is free, and the distances are real. */
  ghost predicate Explored(valid: Coord -> bool, empty: Coord -> bool, start: Coord, s: Search) {
    && start in s.dist && s.dist[start] == 0
    && (forall c :: c in s.dist ==> Reaches(valid, start, c, s.dist[c]) && !Free(valid, empty, c))
    && (forall c :: c in s.done ==> c in s.dist)
    && (forall c :: c in s.queue ==> c in s.dist)
    && (forall c :: c in s.dist ==> c in s.done || c in s.queue)
    && NoDup(s.done + s.queue)
  }

  /** The queue holds at most two consecutive levels, nearest first, none nearer than what was
      expanded. */
  ghost predicate Levelled(s: Search)
    requires forall c :: c in s.queue ==> c in s.dist
    requires forall c :: c in s.done ==> c in s.dist
  {
    && (forall i, j :: 0 <= i <= j < |s.queue| ==> s.dist[s.queue[i]] <= s.dist[s.queue[j]] <= s.dist[s.queue[i]] + 1)
    && (forall i, j :: 0 <= i < |s.done| && 0 <= j < |s.queue| ==> s.dist[s.done[i]] <= s.dist[s.queue[j]])
  }

  /** The first n neighbours of c have been seen and lie at most one step further. */
  ghost predicate Looked(valid: Coord -> bool, s: Search, c: Coord, n: nat)
    requires n <= 4 && c in s.dist
  {
    forall k :: 0 <= k < n && valid(Neighbour(c, k)) ==>
      Neighbour(c, k) in s.dist && s.dist[Neighbour(c, k)] <= s.dist[c] + 1
  }

  ghost predicate Inv(valid: Coord -> bool, empty: Coord -> bool, start: Coord, s: Search) {
    && Explored(valid, empty, start, s)
    && Levelled(s)
    && (forall c :: c in s.done ==> Looked(valid, s, c, 4))
  }

  /** Everything no further than the head of the queue has been seen, at its true distance. */
  lemma {:induction false} SeenUpTo(valid: Coord -> bool, empty: Coord -> bool, start: Coord, s: Search, d: nat,
                                   c: Coord, n: nat)
    requires Inv(valid, empty, start, s)
    requires forall b :: b in s.queue ==> d <= s.dist[b]
    requires n <= d && Reaches(valid, start, c, n)
    ensures c in s.dist && s.dist[c] <= n
    decreases n
  {
    if n > 0 {
      var k :| 0 <= k < 4 && Reaches(valid, start, Neighbour(c, k), n - 1);
      var b := Neighbour(c, k);
      SeenUpTo(valid, empty, start, s, d, b, n - 1);
      assert b in s.done;
      StepBack(c, k);
      assert Looked(valid, s, b, 4);
    }
  }

  /** With an empty queue everything reachable has been seen. */
  lemma {:induction false} SeenAll(valid: Coord -> bool, empty: Coord -> bool, start: Coord, s: Search,
                                  c: Coord, n: nat)
    requires Inv(valid, empty, start, s) && s.queue == []
    requires Reaches(valid, start, c, n)
    ensures c in s.dist
  {
    SeenUpTo(valid, empty, start, s, n, c, n);
  }

  // ---------------------------------------------------------------- the cap

  function Row(x: int, lo: int, n: nat): (S: set<Coord>)
    ensures |S| == n
    ensures forall c :: c in S <==> c.0 == x && lo <= c.1 < lo + n
  {
    if n == 0 then {} else Row(x, lo, n - 1) + {(x, lo + n - 1)}
  }

  /** The cells of column j within distance r of a centre, on either side of the axis. */
  function Half(j: int, r: nat): nat
    requires 0 <= r + j && j <= r
  {
    r - (if j < 0 then -j else j)
  }

  /** The size of a diamond of radius r from column -r up to column k - 1. */
  function DiamondSize(r: nat, k: int): nat
    requires 0 <= r + k && k <= r + 1
    decreases k + r
  {
    if r + k == 0 then 0 else DiamondSize(r, k - 1) + 2 * Half(k - 1, r) + 1
  }

  function Column(c: Coord, r: nat, j: int): (S: set<Coord>)
    requires 0 <= r + j && j <= r
    ensures |S| == 2 * Half(j, r) + 1
    ensures forall d :: d in S <==> d.0 - c.0 == j && Manhattan(c, d) <= r
  {
    Row(c.0 + j, c.1 - Half(j, r), 2 * Half(j, r) + 1)
  }

  function Diamond(c: Coord, r: nat, k: int): (S: set<Coord>)
    requires 0 <= r + k && k <= r + 1
    ensures |S| == DiamondSize(r, k)
    ensures forall d :: d in S <==> Manhattan(c, d) <= r && d.0 - c.0 < k
    decreases k + r
  {
    if r + k == 0 then {}
    else
      assert Diamond(c, r, k - 1) !! Column(c, r, k - 1);
      Diamond(c, r, k - 1) + Column(c, r, k - 1)
  }

  lemma Nearby(start: Coord, cells: seq<Coord>)
    requires NoDup(cells) && forall c :: c in cells ==> Manhattan(start, c) <= 6
    ensures |cells| <= 85
  {
    hide Diamond;
    NoDupFits(cells, Diamond(start, 6, 7));
    assert DiamondSize(6, 7) == 85 by {
      hide Manhattan;
    }
  }

  /** When the hundredth expansion is behind, everything within seven steps has been seen. */
  lemma CapReached(valid: Coord -> bool, empty: Coord -> bool, start: Coord, s: Search, c: Coord, n: nat)
    requires Inv(valid, empty, start, s) && |s.done| >= CAP && s.queue != []
    requires n <= 7 && Reaches(valid, start, c, n)
    ensures !Free(valid, empty, c)
  {
    var d := s.dist[s.queue[0]];
    if d >= 7 {
      SeenUpTo(valid, empty, start, s, 7, c, n);
    } else {
      forall b | b in s.done
        ensures Manhattan(start, b) <= 6
      {
        var i :| 0 <= i < |s.done| && s.done[i] == b;
        assert s.dist[s.done[i]] <= s.dist[s.queue[0]];
        ReachesFar(valid, start, b, s.dist[b]);
      }
      assert NoDup(s.done) by {
        assert forall i :: 0 <= i < |s.done| ==> s.done[i] == (s.done + s.queue)[i];
      }
      Nearby(start, s.done);
    }
  }

  // ---------------------------------------------------------------- the search on an open plane

  ghost predicate Open(valid: Coord -> bool) {
    forall d :: valid(d)
  }

  /** The cell m steps straight along the last of the four directions. */
  function South(start: Coord, m: nat): Coord {
    (start.0, start.1 - m)
  }

  predicate OnSouth(start: Coord, c: Coord) {
    c == South(start, Manhattan(start, c))
  }

  /** On an open plane steps are distances, and the cell straight south is the last one of its distance
      to be put into the queue: it is found from the one north of it, as the fourth neighbour. `c` has
      had its first k neighbours looked at. */
  ghost predicate SouthLast(start: Coord, s: Search, c: Coord, k: nat) {
    && (forall b :: b in s.done + s.queue ==> b in s.dist)
    && (forall b :: b in s.dist ==> s.dist[b] == Manhattan(start, b))
    && (forall i, j :: 0 <= i < j < |s.done + s.queue| && OnSouth(start, (s.done + s.queue)[i]) ==>
          Manhattan(start, (s.done + s.queue)[i]) < Manhattan(start, (s.done + s.queue)[j]))
    && (forall b :: b in s.dist && OnSouth(start, b) && b != start ==>
          Neighbour(b, 0) in s.done && (Neighbour(b, 0) == c ==> k == 4))
  }

  /** Every cell up to c's distance has been seen. */
  ghost predicate SeenAround(start: Coord, s: Search, c: Coord) {
    forall b :: Manhattan(start, b) <= Manhattan(start, c) ==> b in s.dist
  }

  lemma SeenOnPlane(valid: Coord -> bool, empty: Coord -> bool, start: Coord, s: Search)
    requires Open(valid) && Inv(valid, empty, start, s) && s.queue != []
    ensures SeenAround(start, s, s.queue[0])
  {
    assert Manhattan(start, s.queue[0]) <= s.dist[s.queue[0]] by {
      assert s.queue[0] in s.dist;
      ReachesFar(valid, start, s.queue[0], s.dist[s.queue[0]]);
    }
    forall b | Manhattan(start, b) <= Manhattan(start, s.queue[0])
      ensures b in s.dist
    {
      OpenPlane(valid, start, b);
      SeenUpTo(valid, empty, start, s, s.dist[s.queue[0]], b, Manhattan(start, b));
    }
  }

  lemma PopSouth(valid: Coord -> bool, empty: Coord -> bool, start: Coord, s: Search, c: Coord)
    requires Inv(valid, empty, start, s) && s.queue != [] && SouthLast(start, s, c, 4)
    ensures SouthLast(start, Popped(s), s.queue[0], 0)
  {
    hide Reaches, Levelled, Looked, Free, Manhattan;
    var t := Popped(s);
    assert t.done + t.queue == s.done + s.queue;
    forall b | b in s.dist && OnSouth(start, b) && b != start
      ensures Neighbour(b, 0) in t.done && Neighbour(b, 0) != s.queue[0]
    {
      var i :| 0 <= i < |s.done| && s.done[i] == Neighbour(b, 0);
      assert t.done[i] == s.done[i];
      assert (s.done + s.queue)[i] != (s.done + s.queue)[|s.done|];
    }
  }

  /** A cell straight south that is one step further than c was found before c was taken off, so from
      a cell of c's distance that came earlier: there is none, as that one is the last. */
  lemma SouthFromNorth(valid: Coord -> bool, empty: Coord -> bool, start: Coord, s: Search, c: Coord, k: nat, i: nat)
    requires k < 4 && Expanding(valid, empty, start, s, c, k) && SouthLast(start, s, c, k)
    requires i < |s.done + s.queue| && OnSouth(start, (s.done + s.queue)[i])
    ensures Manhattan(start, (s.done + s.queue)[i]) <= Manhattan(start, c)
  {
    hide Reaches, Levelled, Looked;
    var b := (s.done + s.queue)[i];
    assert b in s.done + s.queue;
    if b != start {
      var a :| 0 <= a < |s.done| && s.done[a] == Neighbour(b, 0);
      assert (s.done + s.queue)[a] == s.done[a] && (s.done + s.queue)[|s.done| - 1] == c;
    }
  }

  /** A cell found as the k-th neighbour keeps the order. */
  lemma DiscoverSouth(valid: Coord -> bool, empty: Coord -> bool, start: Coord, s: Search, c: Coord, k: nat)
    requires k < 4 && Expanding(valid, empty, start, s, c, k) && SouthLast(start, s, c, k)
    requires var n := Neighbour(c, k); n !in s.dist && Manhattan(start, n) > Manhattan(start, c)
    ensures var n := Neighbour(c, k);
            SouthLast(start, Search(s.dist[n := s.dist[c] + 1], s.done, s.queue + [n]), c, k + 1)
  {
    hide Reaches, Levelled, Looked;
    var n := Neighbour(c, k);
    var all := s.done + s.queue;
    assert s.done + (s.queue + [n]) == all + [n];
    forall i | 0 <= i < |all| && OnSouth(start, all[i])
      ensures Manhattan(start, all[i]) < Manhattan(start, n)
    {
      SouthFromNorth(valid, empty, start, s, c, k, i);
    }
    if OnSouth(start, n) {
      NorthOf(start, c, k);
    }
  }

  lemma NorthOf(start: Coord, c: Coord, k: nat)
    requires k < 4 && OnSouth(start, Neighbour(c, k)) && Manhattan(start, Neighbour(c, k)) > Manhattan(start, c)
    ensures k == 3 && Neighbour(Neighbour(c, k), 0) == c
  {
  }

  /** What a hundred expansions cannot reach on an open plane: anything nine steps away, and the cell
      eight steps straight south. */
  ghost predicate Bounded(valid: Coord -> bool, start: Coord, r: Option<Coord>) {
    Open(valid) && r.Some? ==> Manhattan(start, r.value) <= 8 && r.value != South(start, 8)
  }

  ghost predicate Covers(start: Coord, cells: seq<Coord>) {
    forall b :: Manhattan(start, b) <= 7 ==> b in cells
  }

  lemma WholeDiamond(start: Coord, cells: seq<Coord>)
    requires Covers(start, cells)
    ensures |cells| >= 113
  {
    hide Diamond;
    SetFits(Diamond(start, 7, 8), cells);
    assert DiamondSize(7, 8) == 113 by {
      hide Manhattan;
    }
  }

  /** While fewer than a hundred cells have been expanded, a free neighbour of the head is bounded. */
  lemma HitBounded(valid: Coord -> bool, empty: Coord -> bool, start: Coord, s: Search, c: Coord, hit: Coord)
    requires Inv(valid, empty, start, s) && s.queue != [] && |s.done| < CAP
    requires Open(valid) ==> SouthLast(start, s, c, 4)
    requires exists k :: 0 <= k < 4 && hit == Neighbour(s.queue[0], k) && Free(valid, empty, Neighbour(s.queue[0], k))
    ensures Bounded(valid, start, Some(hit))
  {
    if Open(valid) {
      hide Covers, Looked, Reaches;
      var head := s.queue[0];
      SeenOnPlane(valid, empty, start, s);
      assert hit !in s.dist && head in s.queue;
      HeadOf(start, head, hit);
      assert (s.done + s.queue)[|s.done|] == head;
      if Manhattan(start, head) >= 8 || head == South(start, 7) {
        Inside(start, s, c);
        WholeDiamond(start, s.done + [head]);
      }
    }
  }

  /** A cell that was not seen yet, next to a cell less than eight steps away. */
  lemma HeadOf(start: Coord, head: Coord, hit: Coord)
    requires exists k :: 0 <= k < 4 && hit == Neighbour(head, k)
    ensures Manhattan(start, hit) <= Manhattan(start, head) + 1
    ensures hit == South(start, 8) ==> Manhattan(start, head) >= 8 || head == South(start, 7)
  {
  }

  /** Whatever is nearer than the head, or as near when the head lies straight south, has been expanded. */
  lemma BeforeHead(start: Coord, s: Search, c: Coord, b: Coord)
    requires SouthLast(start, s, c, 4) && s.queue != [] && b in s.dist && (b in s.done || b in s.queue)
    requires s.queue[0] in s.dist && (forall d :: d in s.queue ==> s.dist[s.queue[0]] <= s.dist[d])
    requires Manhattan(start, b) < Manhattan(start, s.queue[0])
             || (OnSouth(start, s.queue[0]) && Manhattan(start, b) <= Manhattan(start, s.queue[0]))
    ensures b in s.done + [s.queue[0]]
  {
    if b in s.queue {
      var j :| 0 <= j < |s.queue| && s.queue[j] == b;
      assert (s.done + s.queue)[|s.done|] == s.queue[0] && (s.done + s.queue)[|s.done| + j] == b;
    }
  }

  lemma Inside(start: Coord, s: Search, c: Coord)
    requires SouthLast(start, s, c, 4) && s.queue != [] && SeenAround(start, s, s.queue[0])
    requires forall d :: d in s.dist ==> d in s.done || d in s.queue
    requires s.queue[0] in s.dist && (forall d :: d in s.queue ==> d in s.dist && s.dist[s.queue[0]] <= s.dist[d])
    requires Manhattan(start, s.queue[0]) >= 8 || s.queue[0] == South(start, 7)
    ensures Covers(start, s.done + [s.queue[0]])
  {
    forall b | Manhattan(start, b) <= 7
      ensures b in s.done + [s.queue[0]]
    {
      BeforeHead(start, s, c, b);
    }
  }

  // ---------------------------------------------------------------- the order of the search

  lemma StepIsNeighbour(c: Coord, k: nat)
    requires k < 4
    ensures Step(c, k) == Neighbour(c, k)
  {
  }

  lemma {:induction false} LeadsReaches(valid: Coord -> bool, start: Coord, w: Way, c: Coord)
    requires Leads(valid, start, w, c)
    ensures Reaches(valid, start, c, |w|)
    decreases w
  {
    if w != [] {
      var front: Way, k := w[..|w| - 1], w[|w| - 1];
      assert w == front + [k];
      OneMoreStep(valid, start, front, c, k);
      LeadsReaches(valid, start, front, End(start, front));
      StepIsNeighbour(End(start, front), k);
      ReachesNeighbour(valid, start, End(start, front), |front|, k);
    }
  }

  /** Fewer than a hundred cells can be reached by ways earlier than this one. */
  ghost predicate Room(valid: Coord -> bool, start: Coord, w: Way) {
    forall cells: seq<Coord> :: NoDup(cells) && AllEarlier(valid, start, cells, w) ==> |cells| < 100
  }

  ghost predicate AllEarlier(valid: Coord -> bool, start: Coord, cells: seq<Coord>, w: Way) {
    forall i :: 0 <= i < |cells| ==> exists v: Way :: Leads(valid, start, v, cells[i]) && Earlier(v, w)
  }

  /** The earliest way to any free cell, if fewer than a hundred cells come before the one it leaves last. */
  ghost predicate Picks(valid: Coord -> bool, empty: Coord -> bool, start: Coord, w: Way, c: Coord) {
    && Leads(valid, start, w, c) && Free(valid, empty, c) && w != [] && Room(valid, start, w[..|w| - 1])
    && forall v: Way, b :: Leads(valid, start, v, b) && Free(valid, empty, b) ==> !Earlier(v, w)
  }

  /** Which cell the search gives, exactly. */
  ghost predicate Chosen(valid: Coord -> bool, empty: Coord -> bool, start: Coord, r: Option<Coord>) {
    if Free(valid, empty, start) then r == Some(start)
    else
      && (forall w: Way, c :: Picks(valid, empty, start, w, c) ==> r == Some(c))
      && ((forall w: Way, c :: !Picks(valid, empty, start, w, c)) ==>
            r == if valid(start) then Some(start) else None)
  }

  /** At most one cell is picked. */
  lemma PicksOne(valid: Coord -> bool, empty: Coord -> bool, start: Coord, v: Way, w: Way, b: Coord, c: Coord)
    requires Picks(valid, empty, start, v, b) && Picks(valid, empty, start, w, c)
    ensures v == w && b == c
  {
    RankExactly(v, w);
    RankExactly(w, v);
  }

  /** Every cell seen has its earliest way, and cells were seen in the order of these ways. `c` has had its
      first k neighbours looked at. */
  ghost predicate Ordered(valid: Coord -> bool, start: Coord, s: Search, ways: map<Coord, Way>, c: Coord, k: nat) {
    && ways.Keys == s.dist.Keys && c in ways && (c in s.done || s.dist.Keys == {c})
    && (forall b :: b in s.done + s.queue ==> b in ways)
    && (forall b :: b in ways ==> Leads(valid, start, ways[b], b) && |ways[b]| == s.dist[b])
    && (forall i, j :: 0 <= i < j < |s.done + s.queue| ==>
          Rank(ways[(s.done + s.queue)[i]]) < Rank(ways[(s.done + s.queue)[j]]))
    && (forall b :: b in ways ==> Rank(ways[b]) < 5 * Rank(ways[c]) + k + 1)
    && (forall b, j :: b in s.done && 0 <= j < 4 && (b == c ==> j < k) ==> Follows(valid, ways, b, j))
  }

  /** A neighbour has been seen no later than from here. */
  ghost predicate Follows(valid: Coord -> bool, ways: map<Coord, Way>, b: Coord, j: nat)
    requires b in ways && j < 4
  {
    valid(Neighbour(b, j)) ==>
      Neighbour(b, j) in ways && Rank(ways[Neighbour(b, j)]) <= 5 * Rank(ways[b]) + j + 1
  }

  lemma BeginOrdered(valid: Coord -> bool, start: Coord)
    ensures Ordered(valid, start, Search(map[start := 0], [], [start]), map[start := []], start, 4)
  {
  }

  lemma PopOrdered(valid: Coord -> bool, empty: Coord -> bool, start: Coord, s: Search, ways: map<Coord, Way>, c: Coord)
    requires Inv(valid, empty, start, s) && s.queue != [] && Ordered(valid, start, s, ways, c, 4)
    ensures Ordered(valid, start, Popped(s), ways, s.queue[0], 0)
  {
    hide Leads, Reaches, Levelled, Looked, Follows, Rank;
    var t, all, head := Popped(s), s.done + s.queue, s.queue[0];
    assert t.done + t.queue == all && all[|s.done|] == head;
    assert head in all;
    assert c in s.done ==> Rank(ways[c]) < Rank(ways[head]) by {
      if c in s.done {
        var i :| 0 <= i < |s.done| && s.done[i] == c;
        assert all[i] == c && Rank(ways[all[i]]) < Rank(ways[all[|s.done|]]);
      }
    }
    forall b, j | b in t.done && 0 <= j < 4 && (b == head ==> j < 0)
      ensures Follows(valid, ways, b, j)
    {
      assert b in s.done;
    }
  }

  lemma DiscoverOrdered(valid: Coord -> bool, start: Coord, s: Search, ways: map<Coord, Way>, c: Coord, k: nat)
    requires k < 4 && Ordered(valid, start, s, ways, c, k) && c in s.done
    requires var n := Neighbour(c, k); valid(n) && n !in s.dist
    ensures c in ways && c in s.dist
    ensures var n := Neighbour(c, k);
            Ordered(valid, start, Search(s.dist[n := s.dist[c] + 1], s.done, s.queue + [n]),
                    ways[n := ways[c] + [k]], c, k + 1)
  {
    hide Leads, Rank, Follows;
    var n := Neighbour(c, k);
    var more := ways[n := ways[c] + [k]];
    StepIsNeighbour(c, k);
    OneMoreStep(valid, start, ways[c], c, k);
    LeadsEnd(valid, start, ways[c], c);
    SortedMore(s.done + s.queue, ways, n, more[n]);
    assert s.done + (s.queue + [n]) == s.done + s.queue + [n];
    forall b, j | b in s.done && 0 <= j < 4 && (b == c ==> j < k + 1)
      ensures b in more && Follows(valid, more, b, j)
    {
      assert b in s.done + s.queue;
      FollowsMore(valid, ways, c, k, b, j);
    }
  }

  lemma FollowsMore(valid: Coord -> bool, ways: map<Coord, Way>, c: Coord, k: nat, b: Coord, j: nat)
    requires k < 4 && j < 4 && b in ways && c in ways && Neighbour(c, k) !in ways
    requires Rank(ways[c] + [k]) == 5 * Rank(ways[c]) + k + 1
    requires if b == c then j <= k && (j < k ==> Follows(valid, ways, b, j)) else Follows(valid, ways, b, j)
    ensures Follows(valid, ways[Neighbour(c, k) := ways[c] + [k]], b, j)
  {
    hide Rank;
  }

  lemma SortedMore(all: seq<Coord>, ways: map<Coord, Way>, n: Coord, w: Way)
    requires (forall b :: b in all ==> b in ways) && n !in ways
    requires forall i, j :: 0 <= i < j < |all| ==> Rank(ways[all[i]]) < Rank(ways[all[j]])
    requires forall b :: b in ways ==> Rank(ways[b]) < Rank(w)
    ensures var more := ways[n := w];
            && (forall b :: b in all + [n] ==> b in more)
            && forall i, j :: 0 <= i < j < |all + [n]| ==> Rank(more[(all + [n])[i]]) < Rank(more[(all + [n])[j]])
  {
    hide Rank;
    forall i | 0 <= i < |all|
      ensures all[i] in ways && all[i] != n
    {
      assert all[i] in all;
    }
  }

  lemma LeadsEnd(valid: Coord -> bool, start: Coord, w: Way, c: Coord)
    requires Leads(valid, start, w, c)
    ensures End(start, w) == c
  {
  }

  lemma SeenOrdered(valid: Coord -> bool, start: Coord, s: Search, ways: map<Coord, Way>, c: Coord, k: nat)
    requires k < 4 && Ordered(valid, start, s, ways, c, k) && c in s.done
    requires valid(Neighbour(c, k)) ==> Neighbour(c, k) in s.dist
    ensures Ordered(valid, start, s, ways, c, k + 1)
  {
    hide Leads, Rank;
    assert Follows(valid, ways, c, k);
    forall b, j | b in s.done && 0 <= j < 4 && (b == c ==> j < k + 1)
      ensures Follows(valid, ways, b, j)
    {
      if !(b == c && j == k) {
        assert b == c ==> j < k;
      }
    }
  }

  /** Whatever a way no longer than the distance of the queue leads to has been seen by a way no later. */
  lemma {:induction false} NoEarlierWay(valid: Coord -> bool, empty: Coord -> bool, start: Coord, s: Search,
                                        ways: map<Coord, Way>, last: Coord, d: nat, v: Way, b: Coord)
    requires Inv(valid, empty, start, s) && Ordered(valid, start, s, ways, last, 4)
    requires forall q :: q in s.queue ==> d <= s.dist[q]
    requires Leads(valid, start, v, b) && |v| <= d
    ensures b in ways && Rank(ways[b]) <= Rank(v)
    decreases v
  {
    hide Reaches, Levelled, Looked, Rank;
    if v == [] {
      assert b == start;
      StartFirst(valid, empty, start, s, ways, last);
    } else {
      var u: Way, k := v[..|v| - 1], v[|v| - 1];
      assert v == u + [k];
      var a := End(start, u);
      OneMoreStep(valid, start, u, a, k);
      OneMoreStep(valid, start, u, b, k);
      NoEarlierWay(valid, empty, start, s, ways, last, d, u, a);
      StepIsNeighbour(a, k);
      ShortWay(valid, empty, start, s, d, u, a);
      assert Follows(valid, ways, a, k);
    }
  }

  lemma StartFirst(valid: Coord -> bool, empty: Coord -> bool, start: Coord, s: Search, ways: map<Coord, Way>, c: Coord)
    requires Inv(valid, empty, start, s) && Ordered(valid, start, s, ways, c, 4)
    ensures start in ways && ways[start] == []
  {
  }

  /** A cell reached by a way shorter than the distance of the queue is expanded. */
  lemma ShortWay(valid: Coord -> bool, empty: Coord -> bool, start: Coord, s: Search, d: nat, u: Way, a: Coord)
    requires Inv(valid, empty, start, s) && (forall q :: q in s.queue ==> d <= s.dist[q])
    requires Leads(valid, start, u, a) && |u| < d
    ensures a in s.done
  {
    LeadsReaches(valid, start, u, a);
    SeenUpTo(valid, empty, start, s, d, a, |u|);
  }

  /** The free neighbour found first is picked. */
  lemma HitPicked(valid: Coord -> bool, empty: Coord -> bool, start: Coord, s: Search, ways: map<Coord, Way>,
                  last: Coord, k: nat)
    requires Inv(valid, empty, start, s) && s.queue != [] && Ordered(valid, start, s, ways, last, 4)
    requires |s.done| < 100 && k < 4 && Free(valid, empty, Neighbour(s.queue[0], k))
    requires forall j :: 0 <= j < k ==> !Free(valid, empty, Neighbour(s.queue[0], j))
    ensures s.queue[0] in ways && Picks(valid, empty, start, ways[s.queue[0]] + [k], Neighbour(s.queue[0], k))
  {
    hide Levelled, Looked, Reaches, Leads, Room, Rank;
    var h := s.queue[0];
    assert h in s.queue && h in s.done + s.queue;
    StepIsNeighbour(h, k);
    var w: Way := ways[h] + [k];
    OneMoreStep(valid, start, ways[h], h, k);
    assert w[..|w| - 1] == ways[h];
    HeadHasRoom(valid, empty, start, s, ways, last);
    forall v: Way, b | Leads(valid, start, v, b) && Earlier(v, w)
      ensures !Free(valid, empty, b)
    {
      NoFreeBefore(valid, empty, start, s, ways, last, k, v, b);
    }
  }

  lemma HeadHasRoom(valid: Coord -> bool, empty: Coord -> bool, start: Coord, s: Search, ways: map<Coord, Way>,
                    last: Coord)
    requires Inv(valid, empty, start, s) && s.queue != [] && Ordered(valid, start, s, ways, last, 4)
    requires |s.done| < 100
    ensures s.queue[0] in ways && Room(valid, start, ways[s.queue[0]])
  {
    hide Levelled, Looked, Reaches, Leads, Rank, Earlier;
    var h := s.queue[0];
    assert h in s.done + s.queue && h in s.queue;
    HeadNearest(s);
    forall cells: seq<Coord> | NoDup(cells) && AllEarlier(valid, start, cells, ways[h])
      ensures |cells| < 100
    {
      var seen := set b | b in s.done;
      forall b | b in cells
        ensures b in seen
      {
        var i :| 0 <= i < |cells| && cells[i] == b;
        var v: Way :| Leads(valid, start, v, cells[i]) && Earlier(v, ways[h]);
        EarlierDone(valid, empty, start, s, ways, last, v, b);
      }
      NoDupFits(cells, seen);
      SetFits(seen, s.done);
    }
  }

  lemma HeadNearest(s: Search)
    requires (forall c :: c in s.queue ==> c in s.dist) && (forall c :: c in s.done ==> c in s.dist)
    requires Levelled(s) && s.queue != []
    ensures forall q :: q in s.queue ==> s.dist[s.queue[0]] <= s.dist[q]
  {
  }

  lemma QueueAfter(s: Search, ways: map<Coord, Way>, a: Coord)
    requires s.queue != [] && (a in s.done || a in s.queue)
    requires forall b :: b in s.done + s.queue ==> b in ways
    requires forall i, j :: 0 <= i < j < |s.done + s.queue| ==>
               Rank(ways[(s.done + s.queue)[i]]) < Rank(ways[(s.done + s.queue)[j]])
    ensures a in s.done || (s.queue[0] in ways && a in ways && Rank(ways[s.queue[0]]) <= Rank(ways[a]))
  {
    hide Rank;
    if a !in s.done {
      var all := s.done + s.queue;
      var j :| 0 <= j < |s.queue| && s.queue[j] == a;
      assert all[|s.done|] == s.queue[0] && all[|s.done| + j] == a;
      assert s.queue[0] in all && a in all;
    }
  }

  lemma EarlierDone(valid: Coord -> bool, empty: Coord -> bool, start: Coord, s: Search, ways: map<Coord, Way>,
                    last: Coord, v: Way, b: Coord)
    requires Inv(valid, empty, start, s) && s.queue != [] && Ordered(valid, start, s, ways, last, 4)
    requires s.queue[0] in ways && Leads(valid, start, v, b) && Earlier(v, ways[s.queue[0]])
    ensures b in s.done
  {
    hide Levelled, Looked, Reaches, Leads, Rank;
    var h := s.queue[0];
    HeadNearest(s);
    NoEarlierWay(valid, empty, start, s, ways, last, s.dist[h], v, b);
    RankExactly(v, ways[h]);
    QueueAfter(s, ways, b);
  }

  /** No way before that of the k-th neighbour of the head leads to a free cell. */
  lemma NoFreeBefore(valid: Coord -> bool, empty: Coord -> bool, start: Coord, s: Search, ways: map<Coord, Way>,
                     last: Coord, k: nat, v: Way, b: Coord)
    requires Inv(valid, empty, start, s) && s.queue != [] && Ordered(valid, start, s, ways, last, 4) && k < 4
    requires s.queue[0] in ways && forall j :: 0 <= j < k ==> !Free(valid, empty, Neighbour(s.queue[0], j))
    requires Leads(valid, start, v, b) && Earlier(v, ways[s.queue[0]] + [k])
    ensures !Free(valid, empty, b)
  {
    hide Levelled, Looked, Reaches, Rank, Earlier;
    var h := s.queue[0];
    var w: Way := ways[h] + [k];
    assert h in s.queue;
    RankExactly(v, w);
    OneMoreStep(valid, start, ways[h], h, k);
    if v == [] {
      assert b == start && start in s.dist;
    } else {
      var u: Way, j := v[..|v| - 1], v[|v| - 1];
      assert v == u + [j];
      var a := End(start, u);
      OneMoreStep(valid, start, u, a, j);
      OneMoreStep(valid, start, u, b, j);
      StepIsNeighbour(a, j);
      RankExactly(u, ways[h]);
      if Rank(u) < Rank(ways[h]) {
        EarlierDone(valid, empty, start, s, ways, last, u, a);
        assert Follows(valid, ways, a, j);
      } else {
        LeadsEnd(valid, start, ways[h], h);
        assert u == ways[h] && a == h && j < k;
      }
    }
  }

  /** After a hundred cells no way that has room leads to a free cell. */
  lemma NothingPicked(valid: Coord -> bool, empty: Coord -> bool, start: Coord, s: Search, ways: map<Coord, Way>,
                      last: Coord, w: Way, c: Coord)
    requires Inv(valid, empty, start, s) && s.queue != [] && Ordered(valid, start, s, ways, last, 4)
    requires |s.done| >= 100 && Leads(valid, start, w, c) && w != [] && Room(valid, start, w[..|w| - 1])
    ensures !Free(valid, empty, c)
  {
    hide Levelled, Looked, Reaches, Rank, Earlier, Room;
    var u: Way, j := w[..|w| - 1], w[|w| - 1];
    assert w == u + [j];
    var a := End(start, u);
    OneMoreStep(valid, start, u, c, j);
    StepIsNeighbour(a, j);
    OneMoreStep(valid, start, u, a, j);
    if a in s.done {
      assert Follows(valid, ways, a, j);
    } else {
      NoDupParts(s.done, s.queue);
      DoneEarlier(valid, empty, start, s, ways, last, u, a);
      NoRoom(valid, start, u, s.done);
    }
  }

  lemma NoRoom(valid: Coord -> bool, start: Coord, w: Way, cells: seq<Coord>)
    requires Room(valid, start, w) && NoDup(cells) && AllEarlier(valid, start, cells, w)
    ensures |cells| < 100
  {
  }

  /** The cells expanded have earlier ways than any to a cell that is not. */
  lemma DoneEarlier(valid: Coord -> bool, empty: Coord -> bool, start: Coord, s: Search, ways: map<Coord, Way>,
                    last: Coord, u: Way, a: Coord)
    requires Inv(valid, empty, start, s) && s.queue != [] && Ordered(valid, start, s, ways, last, 4)
    requires Leads(valid, start, u, a) && a !in s.done
    ensures AllEarlier(valid, start, s.done, u)
  {
    hide Looked, Reaches, Rank, Earlier, Leads;
    var h, all := s.queue[0], s.done + s.queue;
    assert h in s.queue && all[|s.done|] == h && h in all;
    HeadNearest(s);
    forall i | 0 <= i < |s.done|
      ensures exists v: Way :: Leads(valid, start, v, s.done[i]) && Earlier(v, u)
    {
      var b := s.done[i];
      assert b in s.done && all[i] == b && b in all;
      if |u| <= s.dist[h] {
        NoEarlierWay(valid, empty, start, s, ways, last, s.dist[h], u, a);
        QueueAfter(s, ways, a);
        assert Rank(ways[b]) < Rank(ways[h]) <= Rank(ways[a]) <= Rank(u);
      } else {
        assert s.dist[s.done[i]] <= s.dist[s.queue[0]];
        ShorterFirst(ways[b], u);
      }
      RankExactly(ways[b], u);
    }
  }

  lemma ChosenByHit(valid: Coord -> bool, empty: Coord -> bool, start: Coord, w: Way, c: Coord)
    requires !Free(valid, empty, start) && Picks(valid, empty, start, w, c)
    ensures Chosen(valid, empty, start, Some(c))
  {
    forall v: Way, b | Picks(valid, empty, start, v, b)
      ensures b == c
    {
      PicksOne(valid, empty, start, v, w, b, c);
    }
  }

  lemma ChosenByCap(valid: Coord -> bool, empty: Coord -> bool, start: Coord, s: Search, ways: map<Coord, Way>,
                    last: Coord)
    requires Inv(valid, empty, start, s) && s.queue != [] && Ordered(valid, start, s, ways, last, 4)
    requires |s.done| >= 100
    ensures Chosen(valid, empty, start, if valid(start) then Some(start) else None)
  {
    hide Room, Leads, Ordered, Levelled, Looked;
    forall w: Way, c | Leads(valid, start, w, c) && w != [] && Room(valid, start, w[..|w| - 1])
      ensures !Free(valid, empty, c)
    {
      NothingPicked(valid, empty, start, s, ways, last, w, c);
    }
  }

  lemma ChosenByExhaustion(valid: Coord -> bool, empty: Coord -> bool, start: Coord, s: Search)
    requires Inv(valid, empty, start, s) && s.queue == []
    ensures Chosen(valid, empty, start, if valid(start) then Some(start) else None)
  {
    hide Levelled, Looked, Reaches;
    forall w: Way, c | Leads(valid, start, w, c)
      ensures !Free(valid, empty, c)
    {
      LeadsReaches(valid, start, w, c);
      SeenAll(valid, empty, start, s, c, |w|);
    }
  }

  // ---------------------------------------------------------------- the search itself

  lemma Begin(valid: Coord -> bool, empty: Coord -> bool, start: Coord)
    requires !Free(valid, empty, start)
    ensures Inv(valid, empty, start, Search(map[start := 0], [], [start]))
    ensures SouthLast(start, Search(map[start := 0], [], [start]), start, 4)
  {
  }

  /** `c` is reached in n steps and no free cell is reached in fewer. */
  ghost predicate Nearest(valid: Coord -> bool, empty: Coord -> bool, start: Coord, c: Coord, n: nat) {
    && Reaches(valid, start, c, n)
    && forall e, m: nat :: m < n && Reaches(valid, start, e, m) ==> !Free(valid, empty, e)
  }

  /** No free cell can be reached in n steps or fewer. */
  ghost predicate NoneWithin(valid: Coord -> bool, empty: Coord -> bool, start: Coord, n: nat) {
    forall c, m: nat :: m <= n && Reaches(valid, start, c, m) ==> !Free(valid, empty, c)
  }

  ghost predicate NoneReachable(valid: Coord -> bool, empty: Coord -> bool, start: Coord) {
    forall c, m: nat :: Reaches(valid, start, c, m) ==> !Free(valid, empty, c)
  }

  ghost predicate Reachable(valid: Coord -> bool, start: Coord, c: Coord) {
    exists n: nat :: Reaches(valid, start, c, n)
  }

  /** More than a hundred cells can be reached that are not free. */
  ghost predicate Crowded(valid: Coord -> bool, empty: Coord -> bool, start: Coord) {
    exists cells: seq<Coord> ::
      |cells| > 100 && NoDup(cells)
      && forall c :: c in cells ==> Reachable(valid, start, c) && !Free(valid, empty, c)
  }

  /** What the search promises. A free result is a nearest free cell. Otherwise the start is given, if
      valid; then no free cell is within seven steps, and none can be reached at all unless more than
      a hundred cells are in the way. */
  ghost predicate Placed(valid: Coord -> bool, empty: Coord -> bool, start: Coord, r: Option<Coord>) {
    if r.Some? && Free(valid, empty, r.value) then exists n: nat :: Nearest(valid, empty, start, r.value, n)
    else
      && r == (if valid(start) then Some(start) else None)
      && NoneWithin(valid, empty, start, 7)
      && (NoneReachable(valid, empty, start) || Crowded(valid, empty, start))
  }

  lemma NextSouth(start: Coord, s: Search, c: Coord, k: nat)
    requires k < 4
    ensures SouthLast(start, s, c, k) ==> SouthLast(start, s, c, k + 1)
  {
  }

  lemma DiscoverOnPlane(valid: Coord -> bool, empty: Coord -> bool, start: Coord, before: Search, s: Search,
                        c: Coord, k: nat)
    requires k < 4 && Expanding(valid, empty, start, s, c, k) && Neighbour(c, k) !in s.dist
    requires before.dist.Keys <= s.dist.Keys
    requires Open(valid) ==> SeenAround(start, before, c) && SouthLast(start, s, c, k)
    ensures var n := Neighbour(c, k);
            Open(valid) ==> SouthLast(start, Search(s.dist[n := s.dist[c] + 1], s.done, s.queue + [n]), c, k + 1)
  {
    hide SouthLast;
    if Open(valid) {
      DiscoverSouth(valid, empty, start, s, c, k);
    }
  }

  /** The first free neighbour. */
  ghost predicate FirstFree(valid: Coord -> bool, empty: Coord -> bool, c: Coord, k: nat) {
    k < 4 && Free(valid, empty, Neighbour(c, k)) && forall j :: 0 <= j < k ==> !Free(valid, empty, Neighbour(c, j))
  }

  /** One expansion: the four neighbours of the cell just taken off the queue, in turn. A free one
      ends the search; a new one joins the queue. */
  method Expand(start: Coord, valid: Coord -> bool, empty: Coord -> bool, c: Coord,
                queue: seq<Coord>, visited: set<Coord>, ghost before: Search, ghost ways: map<Coord, Way>)
    returns (hit: Option<Coord>, queue': seq<Coord>, visited': set<Coord>, ghost after: Search,
             ghost ways': map<Coord, Way>)
    requires Expanding(valid, empty, start, before, c, 0) && Ordered(valid, start, before, ways, c, 0)
    requires queue == before.queue && visited == before.dist.Keys
    requires Open(valid) ==> SouthLast(start, before, c, 0) && SeenAround(start, before, c)
    ensures hit.Some? ==> exists k :: FirstFree(valid, empty, c, k) && hit.value == Neighbour(c, k)
    ensures hit.None? ==> Inv(valid, empty, start, after) && (Open(valid) ==> SouthLast(start, after, c, 4))
    ensures hit.None? ==> Ordered(valid, start, after, ways', c, 4)
    ensures queue' == after.queue && visited' == after.dist.Keys && after.done == before.done
  {
    hide Open, Levelled, Looked, Reaches, Manhattan, SouthLast, SeenAround, Ordered, Explored;
    hit, queue', visited', after, ways' := None, queue, visited, before, ways;
    for k := 0 to 4
      invariant Expanding(valid, empty, start, after, c, k) && Ordered(valid, start, after, ways', c, k)
      invariant forall j :: 0 <= j < k ==> !Free(valid, empty, Neighbour(c, j))
      invariant before.dist.Keys <= after.dist.Keys && (Open(valid) ==> SouthLast(start, after, c, k))
      invariant queue' == after.queue && visited' == after.dist.Keys && after.done == before.done
    {
      var n := Neighbour(c, k);
      if valid(n) && empty(n) {
        assert FirstFree(valid, empty, c, k);
        return Some(n), queue', visited', after, ways';
      }
      if valid(n) && n !in visited' {
        visited', queue' := visited' + {n}, queue' + [n];
        Discover(valid, empty, start, after, c, k);
        DiscoverOnPlane(valid, empty, start, before, after, c, k);
        DiscoverOrdered(valid, start, after, ways', c, k);
        ways' := ways'[n := ways'[c] + [k]];
        after := Search(after.dist[n := after.dist[c] + 1], after.done, after.queue + [n]);
      } else {
        AlreadySeen(valid, empty, start, after, c, k);
        NextSouth(start, after, c, k);
        SeenOrdered(valid, start, after, ways', c, k);
      }
    }
    EndExpanding(valid, empty, start, after, c);
  }

  lemma StartSouthward(valid: Coord -> bool, empty: Coord -> bool, start: Coord, s: Search, c: Coord)
    requires Inv(valid, empty, start, s) && s.queue != [] && Open(valid) && SouthLast(start, s, c, 4)
    ensures SouthLast(start, Popped(s), s.queue[0], 0) && SeenAround(start, Popped(s), s.queue[0])
  {
    PopSouth(valid, empty, start, s, c);
    SeenOnPlane(valid, empty, start, s);
  }

  method PickBoxCoord(start: Coord, valid: Coord -> bool, empty: Coord -> bool) returns (r: Option<Coord>)
    ensures Placed(valid, empty, start, r)
    ensures Bounded(valid, start, r)
    ensures Chosen(valid, empty, start, r)
  {
    hide Ordered, Chosen, Picks, Open, SouthLast, SeenAround, Bounded, Manhattan;
    hide Reaches, Nearest, Levelled, Looked, NoneWithin, NoneReachable, Crowded;
    StartNearest(valid, empty, start);
    if valid(start) && empty(start) {
      assert Chosen(valid, empty, start, Some(start)) by {
        ChosenAtOnce(valid, empty, start);
      }
      return Some(start);
    }
    var q: seq<Coord> := [start];
    var visited: set<Coord> := {start};
    var iterations := 0;
    ghost var s, last := Search(map[start := 0], [], [start]), start;
    ghost var ways: map<Coord, Way> := map[start := []];
    Begin(valid, empty, start);
    BeginOrdered(valid, start);
    while q != []
      invariant Inv(valid, empty, start, s) && Ordered(valid, start, s, ways, last, 4)
      invariant q == s.queue && visited == s.dist.Keys && iterations == |s.done|
      invariant Open(valid) ==> SouthLast(start, s, last, 4)
      decreases CAP + 1 - iterations
    {
      var c := q[0];
      q := q[1..];
      iterations := iterations + 1;
      if iterations > CAP {
        CapSpent(valid, empty, start, s);
        ChosenByCap(valid, empty, start, s, ways, last);
        return if valid(start) then Some(start) else None;
      }
      StartExpanding(valid, empty, start, s);
      if Open(valid) {
        StartSouthward(valid, empty, start, s, last);
      }
      ghost var before, waysBefore := s, ways;
      PopOrdered(valid, empty, start, s, ways, last);
      var hit;
      hit, q, visited, s, ways := Expand(start, valid, empty, c, q, visited, Popped(s), ways);
      if hit.Some? {
        HitChosen(valid, empty, start, before, waysBefore, last, hit.value);
        HitNearest(valid, empty, start, before, hit.value);
        HitBounded(valid, empty, start, before, last, hit.value);
        return hit;
      }
      last := c;
    }
    QueueEmptied(valid, empty, start, s);
    ChosenByExhaustion(valid, empty, start, s);
    r := if valid(start) then Some(start) else None;
  }

  lemma ChosenAtOnce(valid: Coord -> bool, empty: Coord -> bool, start: Coord)
    requires Free(valid, empty, start)
    ensures Chosen(valid, empty, start, Some(start))
  {
  }

  lemma HitChosen(valid: Coord -> bool, empty: Coord -> bool, start: Coord, s: Search, ways: map<Coord, Way>,
                  last: Coord, hit: Coord)
    requires Inv(valid, empty, start, s) && s.queue != [] && Ordered(valid, start, s, ways, last, 4)
    requires |s.done| < 100 && exists k :: FirstFree(valid, empty, s.queue[0], k) && hit == Neighbour(s.queue[0], k)
    ensures Chosen(valid, empty, start, Some(hit))
    ensures exists k :: 0 <= k < 4 && hit == Neighbour(s.queue[0], k) && Free(valid, empty, Neighbour(s.queue[0], k))
  {
    hide Picks, Ordered, Levelled, Looked, Chosen, Reaches;
    var k :| FirstFree(valid, empty, s.queue[0], k) && hit == Neighbour(s.queue[0], k);
    HitPicked(valid, empty, start, s, ways, last, k);
    assert start in s.dist;
    ChosenByHit(valid, empty, start, ways[s.queue[0]] + [k], hit);
  }

  lemma StartNearest(valid: Coord -> bool, empty: Coord -> bool, start: Coord)
    ensures Nearest(valid, empty, start, start, 0)
    ensures Bounded(valid, start, Some(start)) && Bounded(valid, start, None)
  {
  }

  lemma CapSpent(valid: Coord -> bool, empty: Coord -> bool, start: Coord, s: Search)
    requires Inv(valid, empty, start, s) && |s.done| >= CAP && s.queue != []
    ensures NoneWithin(valid, empty, start, 7) && Crowded(valid, empty, start)
  {
    forall c, n: nat | n <= 7 && Reaches(valid, start, c, n)
      ensures !Free(valid, empty, c)
    {
      CapReached(valid, empty, start, s, c, n);
    }
    var cells := s.done + s.queue;
    forall c | c in cells
      ensures Reachable(valid, start, c) && !Free(valid, empty, c)
    {
      assert c in s.dist && Reaches(valid, start, c, s.dist[c]);
    }
  }

  lemma QueueEmptied(valid: Coord -> bool, empty: Coord -> bool, start: Coord, s: Search)
    requires Inv(valid, empty, start, s) && s.queue == []
    ensures NoneReachable(valid, empty, start) && NoneWithin(valid, empty, start, 7)
  {
    forall c, n: nat | Reaches(valid, start, c, n)
      ensures !Free(valid, empty, c)
    {
      SeenAll(valid, empty, start, s, c, n);
    }
  }

  lemma HitNearest(valid: Coord -> bool, empty: Coord -> bool, start: Coord, s: Search, hit: Coord)
    requires Inv(valid, empty, start, s) && s.queue != []
    requires exists k :: 0 <= k < 4 && hit == Neighbour(s.queue[0], k) && Free(valid, empty, Neighbour(s.queue[0], k))
    ensures Nearest(valid, empty, start, hit, s.dist[s.queue[0]] + 1)
  {
    var k :| 0 <= k < 4 && hit == Neighbour(s.queue[0], k) && Free(valid, empty, Neighbour(s.queue[0], k));
    FoundNearest(valid, empty, start, s, k);
  }

  /** In the middle of an expansion: c is the last expanded cell and its first k neighbours have
      been dealt with. */
  ghost predicate Expanding(valid: Coord -> bool, empty: Coord -> bool, start: Coord, s: Search, c: Coord, k: nat)
    requires k <= 4
  {
    && Explored(valid, empty, start, s)
    && Levelled(s)
    && |s.done| > 0 && s.done[|s.done| - 1] == c
    && (forall i :: 0 <= i < |s.done| ==> s.dist[s.done[i]] <= s.dist[c])
    && (forall i :: 0 <= i < |s.queue| ==> s.dist[s.queue[i]] <= s.dist[c] + 1)
    && (forall b :: b in s.done && b != c ==> Looked(valid, s, b, 4))
    && Looked(valid, s, c, k)
  }

  lemma TakenOff(s: Search, b: Coord)
    requires s.queue != [] && (b in s.done || b in s.queue)
    ensures b in s.done + [s.queue[0]] || b in s.queue[1..]
  {
    if b in s.queue {
      var i :| 0 <= i < |s.queue| && s.queue[i] == b;
      assert i == 0 || s.queue[1..][i - 1] == b;
      assert (s.done + [s.queue[0]])[|s.done|] == s.queue[0];
    }
  }

  /** The search with the head of its queue moved to the expanded cells. */
  ghost function Popped(s: Search): Search
    requires s.queue != []
  {
    Search(s.dist, s.done + [s.queue[0]], s.queue[1..])
  }

  lemma PoppedExplored(valid: Coord -> bool, empty: Coord -> bool, start: Coord, s: Search)
    requires Explored(valid, empty, start, s) && s.queue != []
    ensures Explored(valid, empty, start, Popped(s))
  {
    var t := Popped(s);
    assert t.done + t.queue == s.done + s.queue;
    forall b | b in s.dist
      ensures b in t.done || b in t.queue
    {
      TakenOff(s, b);
    }
  }

  lemma PoppedLevelled(s: Search)
    requires forall c :: c in s.queue ==> c in s.dist
    requires forall c :: c in s.done ==> c in s.dist
    requires s.queue != [] && Levelled(s)
    ensures forall i :: 0 <= i < |s.done| ==> s.dist[s.done[i]] <= s.dist[s.queue[0]]
    ensures forall i :: 0 <= i < |s.queue| ==> s.dist[s.queue[0]] <= s.dist[s.queue[i]] <= s.dist[s.queue[0]] + 1
    ensures forall c :: c in Popped(s).done ==> c in s.dist
    ensures forall c :: c in Popped(s).queue ==> c in s.dist
    ensures Levelled(Popped(s))
  {
  }

  lemma StartExpanding(valid: Coord -> bool, empty: Coord -> bool, start: Coord, s: Search)
    requires Inv(valid, empty, start, s) && s.queue != []
    ensures Expanding(valid, empty, start, Popped(s), s.queue[0], 0)
  {
    hide Reaches, Levelled, Free, Manhattan;
    PoppedExplored(valid, empty, start, s);
    PoppedLevelled(s);
    var t := Popped(s);
    forall i | 0 <= i < |t.queue|
      ensures s.dist[t.queue[i]] <= s.dist[s.queue[0]] + 1
    {
      assert t.queue[i] == s.queue[i + 1];
    }
  }

  lemma EndExpanding(valid: Coord -> bool, empty: Coord -> bool, start: Coord, s: Search, c: Coord)
    requires Expanding(valid, empty, start, s, c, 4)
    ensures Inv(valid, empty, start, s)
  {
  }

  lemma AlreadySeen(valid: Coord -> bool, empty: Coord -> bool, start: Coord, s: Search, c: Coord, k: nat)
    requires k < 4 && Expanding(valid, empty, start, s, c, k)
    requires valid(Neighbour(c, k)) ==> Neighbour(c, k) in s.dist
    ensures Expanding(valid, empty, start, s, c, k + 1)
  {
    var n := Neighbour(c, k);
    if valid(n) {
      if n in s.done {
        var i :| 0 <= i < |s.done| && s.done[i] == n;
        assert s.dist[s.done[i]] <= s.dist[c];
      } else {
        var i :| 0 <= i < |s.queue| && s.queue[i] == n;
        assert s.dist[s.queue[i]] <= s.dist[c] + 1;
      }
    }
  }

  lemma DiscoverExplored(valid: Coord -> bool, empty: Coord -> bool, start: Coord, s: Search, c: Coord, k: nat)
    requires k < 4 && Explored(valid, empty, start, s) && c in s.dist
    requires var n := Neighbour(c, k); valid(n) && !empty(n) && n !in s.dist
    ensures var n := Neighbour(c, k);
            Explored(valid, empty, start, Search(s.dist[n := s.dist[c] + 1], s.done, s.queue + [n]))
  {
    hide Reaches, Neighbour;
    var n := Neighbour(c, k);
    ReachesNeighbour(valid, start, c, s.dist[c], k);
    NoDupAppend(s.done + s.queue, n);
    assert s.done + (s.queue + [n]) == s.done + s.queue + [n];
    assert (s.queue + [n])[|s.queue|] == n;
  }

  lemma DiscoverLevelled(s: Search, c: Coord, n: Coord)
    requires (forall b :: b in s.queue ==> b in s.dist) && (forall b :: b in s.done ==> b in s.dist)
    requires Levelled(s) && |s.done| > 0 && s.done[|s.done| - 1] == c && n !in s.dist
    requires forall i :: 0 <= i < |s.done| ==> s.dist[s.done[i]] <= s.dist[c]
    requires forall i :: 0 <= i < |s.queue| ==> s.dist[s.queue[i]] <= s.dist[c] + 1
    ensures var t := Search(s.dist[n := s.dist[c] + 1], s.done, s.queue + [n]);
            (forall b :: b in t.queue ==> b in t.dist) && (forall b :: b in t.done ==> b in t.dist) && Levelled(t)
  {
    QueueNotNearer(s, c);
  }

  lemma DiscoverLooked(valid: Coord -> bool, s: Search, c: Coord, k: nat)
    requires k < 4 && c in s.dist && (forall b :: b in s.done ==> b in s.dist) && Neighbour(c, k) !in s.dist
    requires (forall b :: b in s.done && b != c ==> Looked(valid, s, b, 4)) && Looked(valid, s, c, k)
    ensures var n := Neighbour(c, k);
            var t := Search(s.dist[n := s.dist[c] + 1], s.done, s.queue + [n]);
            (forall b :: b in t.done && b != c ==> Looked(valid, t, b, 4)) && Looked(valid, t, c, k + 1)
  {
  }

  lemma Discover(valid: Coord -> bool, empty: Coord -> bool, start: Coord, s: Search, c: Coord, k: nat)
    requires k < 4 && Expanding(valid, empty, start, s, c, k)
    requires var n := Neighbour(c, k); valid(n) && !empty(n) && n !in s.dist
    ensures var n := Neighbour(c, k);
            Expanding(valid, empty, start, Search(s.dist[n := s.dist[c] + 1], s.done, s.queue + [n]), c, k + 1)
  {
    hide Reaches, Levelled, Looked, Manhattan;
    assert c in s.done;
    DiscoverExplored(valid, empty, start, s, c, k);
    DiscoverLooked(valid, s, c, k);
    DiscoverLevelled(s, c, Neighbour(c, k));
  }

  lemma QueueNotNearer(s: Search, c: Coord)
    requires forall b :: b in s.queue ==> b in s.dist
    requires forall b :: b in s.done ==> b in s.dist
    requires Levelled(s) && |s.done| > 0 && s.done[|s.done| - 1] == c
    ensures forall i :: 0 <= i < |s.queue| ==> s.dist[c] <= s.dist[s.queue[i]]
  {
  }

  lemma FoundNearest(valid: Coord -> bool, empty: Coord -> bool, start: Coord, s: Search, k: nat)
    requires Inv(valid, empty, start, s) && s.queue != [] && k < 4
    requires valid(Neighbour(s.queue[0], k))
    ensures Nearest(valid, empty, start, Neighbour(s.queue[0], k), s.dist[s.queue[0]] + 1)
  {
    var c := s.queue[0];
    assert c in s.queue;
    ReachesNeighbour(valid, start, c, s.dist[c], k);
    forall e, m: nat | m < s.dist[c] + 1 && Reaches(valid, start, e, m)
      ensures !Free(valid, empty, e)
    {
      SeenUpTo(valid, empty, start, s, s.dist[c], e, m);
    }
  }

  // ---------------------------------------------------------------- what callers get

  /** Whatever blocks the way, a free cell within seven steps is found despite the cap, and the cell
      given is one of the nearest. */
  lemma WithinSevenSteps(valid: Coord -> bool, empty: Coord -> bool, start: Coord, r: Option<Coord>, c: Coord, n: nat)
    requires Placed(valid, empty, start, r)
    requires n <= 7 && Reaches(valid, start, c, n) && Free(valid, empty, c)
    ensures r.Some? && Free(valid, empty, r.value)
    ensures exists m: nat :: m <= n && Nearest(valid, empty, start, r.value, m)
  {
    var m: nat :| Nearest(valid, empty, start, r.value, m);
    assert m <= n;
  }

  /** However far a free cell is, it or a nearer one is found when no more than a hundred cells can be
      reached before it. */
  lemma InSmallRegion(valid: Coord -> bool, empty: Coord -> bool, start: Coord, r: Option<Coord>, region: set<Coord>,
                      c: Coord, n: nat)
    requires Placed(valid, empty, start, r)
    requires |region| <= 100
    requires forall b :: Reachable(valid, start, b) && !Free(valid, empty, b) ==> b in region
    requires Reaches(valid, start, c, n) && Free(valid, empty, c)
    ensures r.Some? && Free(valid, empty, r.value)
    ensures exists m: nat :: m <= n && Nearest(valid, empty, start, r.value, m)
  {
    if Crowded(valid, empty, start) {
      var cells: seq<Coord> :| |cells| > 100 && NoDup(cells)
        && forall b :: b in cells ==> Reachable(valid, start, b) && !Free(valid, empty, b);
      NoDupFits(cells, region);
    }
    var m: nat :| Nearest(valid, empty, start, r.value, m);
    assert m <= n;
  }

  /** On an open plane a free cell at Manhattan distance seven or less is always found, and none is
      closer than the one given. */
  lemma WithinDistanceSeven(valid: Coord -> bool, empty: Coord -> bool, start: Coord, r: Option<Coord>, c: Coord)
    requires Placed(valid, empty, start, r)
    requires forall d :: valid(d)
    requires Manhattan(start, c) <= 7 && empty(c)
    ensures r.Some? && empty(r.value)
    ensures forall d :: empty(d) ==> Manhattan(start, r.value) <= Manhattan(start, d)
  {
    OpenPlane(valid, start, c);
    WithinSevenSteps(valid, empty, start, r, c, Manhattan(start, c));
    var steps: nat :| Nearest(valid, empty, start, r.value, steps);
    ReachesFar(valid, start, r.value, steps);
    forall d | empty(d)
      ensures Manhattan(start, r.value) <= Manhattan(start, d)
    {
      OpenPlane(valid, start, d);
    }
  }

  /** Seven is the best bound. On an open plane whose free cells lie nine steps away or further, but for
      the one eight steps straight south, the start is given although it is taken. */
  lemma EightStepsMissed(valid: Coord -> bool, empty: Coord -> bool, start: Coord, r: Option<Coord>)
    requires Placed(valid, empty, start, r) && Bounded(valid, start, r)
    requires Open(valid) && forall d :: empty(d) ==> Manhattan(start, d) > 8 || d == South(start, 8)
    ensures r == Some(start) && !empty(start)
    ensures Reaches(valid, start, South(start, 8), 8)
  {
    OpenPlane(valid, start, South(start, 8));
  }
}
