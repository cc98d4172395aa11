/** The skeleton of the world: layers of rock from noise, thinned and blackened by cellular passes
    that rewrite the grid they read. */
module Skeleton {
  import opened LittleEndian
  import opened RowMajor
  import opened Randomness

  const NOTHING := 0
  const RED := 1
  const BLACK := 2

  const EMPTY_CELL: byte := 0
  const RED_ROCK: byte := 117
  const BLACK_ROCK: byte := 114

  type Stuff = v: int | 0 <= v <= 2

  predicate Inside(w: nat, h: nat, x: int, y: int) {
    0 <= x < w && 0 <= y < h
  }

  /** Where the value of a cell is kept. */
  function At(h: nat, x: int, y: int): int {
    x * h + y
  }

  lemma AtBound(w: nat, h: nat, x: int, y: int)
    requires Inside(w, h, x, y)
    ensures 0 <= At(h, x, y) < w * h
  {
    assert x * h <= (w - 1) * h == w * h - h;
  }

  lemma AtUnique(w: nat, h: nat, x: int, y: int, x': int, y': int)
    requires Inside(w, h, x, y) && Inside(w, h, x', y') && At(h, x, y) == At(h, x', y')
    ensures x == x' && y == y'
  {
    RowMajorUnique(h, y, x, y', x');
  }

  /** `chs`. */
  function Chance(y: int): real {
    30.0 - y as real * 0.0028
  }

  /** A roll is below the chance of its row by a comparison of whole numbers. */
  lemma ChanceExactly(roll: int, y: int)
    ensures roll as real < Chance(y) <==> 2500 * roll + 7 * y < 75000
  {
    var r, row := roll as real, y as real;
    assert 2500.0 * Chance(y) == 75000.0 - 7.0 * row;
    assert (2500 * roll + 7 * y) as real == 2500.0 * r + 7.0 * row;
  }

  // ---------------------------------------------------------------- the window of a cell

  /** Cell k of the 5x5 window around (x, y), row by row, as the passes go through it. */
  function WindowX(x: int, k: nat): int { x + k / 5 - 2 }

  function WindowY(y: int, k: nat): int { y + k % 5 - 2 }

  /** One for a cell that is inside and holds the given value. */
  function Holds(v: seq<Stuff>, w: nat, h: nat, x: int, y: int, what: Stuff): nat
    requires |v| == w * h
  {
    if !Inside(w, h, x, y) then 0
    else
      AtBound(w, h, x, y);
      if v[At(h, x, y)] == what then 1 else 0
  }

  /** How many of the first n window cells are inside and hold the given value. */
  function Tally(v: seq<Stuff>, w: nat, h: nat, x: int, y: int, what: Stuff, n: nat): (c: nat)
    requires |v| == w * h
  {
    if n == 0 then 0
    else Tally(v, w, h, x, y, what, n - 1) + Holds(v, w, h, WindowX(x, n - 1), WindowY(y, n - 1), what)
  }

  function Empties(v: seq<Stuff>, w: nat, h: nat, x: int, y: int): nat
    requires |v| == w * h
  {
    Tally(v, w, h, x, y, NOTHING, 25)
  }

  /** A red cell with at most one empty cell in its window. */
  ghost predicate Sheltered(v: seq<Stuff>, w: nat, h: nat, x: int, y: int)
    requires |v| == w * h
  {
    Inside(w, h, x, y) ==> (AtBound(w, h, x, y); v[At(h, x, y)] == RED ==> Empties(v, w, h, x, y) <= 1)
  }

  ghost predicate AllSheltered(v: seq<Stuff>, w: nat, h: nat)
    requires |v| == w * h
  {
    forall x, y :: Sheltered(v, w, h, x, y)
  }

  /** The only thing that happens to a cell is turning into black rock. */
  ghost predicate Blackened(before: seq<Stuff>, after: seq<Stuff>) {
    |before| == |after| && forall i :: 0 <= i < |before| ==> after[i] == before[i] || after[i] == BLACK
  }

  /** Empty cells, moreover, stay empty. */
  ghost predicate EmptyKept(before: seq<Stuff>, after: seq<Stuff>) {
    |before| == |after| && forall i :: 0 <= i < |before| && before[i] == NOTHING ==> after[i] == NOTHING
  }

  lemma NotEmptied(before: seq<Stuff>, after: seq<Stuff>, w: nat, h: nat, x: int, y: int)
    requires |before| == w * h && Blackened(before, after)
    ensures Holds(after, w, h, x, y, NOTHING) <= Holds(before, w, h, x, y, NOTHING)
  {
    if Inside(w, h, x, y) {
      AtBound(w, h, x, y);
    }
  }

  lemma {:induction false} FewerEmpties(before: seq<Stuff>, after: seq<Stuff>, w: nat, h: nat, x: int, y: int, n: nat)
    requires |before| == w * h && Blackened(before, after)
    ensures Tally(after, w, h, x, y, NOTHING, n) <= Tally(before, w, h, x, y, NOTHING, n)
  {
    if n > 0 {
      FewerEmpties(before, after, w, h, x, y, n - 1);
      NotEmptied(before, after, w, h, WindowX(x, n - 1), WindowY(y, n - 1));
    }
  }

  /** A cell a pass has no reason to touch: not red, or few black and empty cells around it. */
  ghost predicate AtRest(v: seq<Stuff>, w: nat, h: nat, x: int, y: int)
    requires |v| == w * h && Inside(w, h, x, y)
  {
    AtBound(w, h, x, y);
    v[At(h, x, y)] != RED || (Tally(v, w, h, x, y, BLACK, 25) <= 3 && Empties(v, w, h, x, y) <= 1)
  }

  /** Cells further than `reach` from (x, y), in either direction, are as they were. */
  ghost predicate FarUnchanged(before: seq<Stuff>, after: seq<Stuff>, w: nat, h: nat, x: int, y: int, reach: nat)
    requires |before| == |after| == w * h
  {
    forall x', y' :: Inside(w, h, x', y') && !(x - reach <= x' <= x + reach && y - reach <= y' <= y + reach) ==>
      (AtBound(w, h, x', y'); after[At(h, x', y')] == before[At(h, x', y')])
  }

  /** Shelter survives blackening. */
  lemma StillSheltered(before: seq<Stuff>, after: seq<Stuff>, w: nat, h: nat, x: int, y: int)
    requires |before| == w * h && Blackened(before, after) && Sheltered(before, w, h, x, y)
    ensures Sheltered(after, w, h, x, y)
  {
    FewerEmpties(before, after, w, h, x, y, 25);
    if Inside(w, h, x, y) {
      AtBound(w, h, x, y);
    }
  }

  lemma AllStillSheltered(before: seq<Stuff>, after: seq<Stuff>, w: nat, h: nat)
    requires |before| == w * h && Blackened(before, after) && AllSheltered(before, w, h)
    ensures AllSheltered(after, w, h)
  {
    forall x, y
      ensures Sheltered(after, w, h, x, y)
    {
      StillSheltered(before, after, w, h, x, y);
    }
  }

  /** Two empty cells in the window of a sheltered red cell are one and the same. */
  lemma ShelteredCells(v: seq<Stuff>, w: nat, h: nat, x: int, y: int, a: (int, int), b: (int, int))
    requires |v| == w * h && Inside(w, h, x, y) && Inside(w, h, a.0, a.1) && Inside(w, h, b.0, b.1)
    requires Sheltered(v, w, h, x, y)
    requires -2 <= a.0 - x <= 2 && -2 <= a.1 - y <= 2 && -2 <= b.0 - x <= 2 && -2 <= b.1 - y <= 2
    requires (AtBound(w, h, x, y); v[At(h, x, y)] == RED)
    requires (AtBound(w, h, a.0, a.1); v[At(h, a.0, a.1)] == NOTHING)
    requires (AtBound(w, h, b.0, b.1); v[At(h, b.0, b.1)] == NOTHING)
    ensures a == b
  {
    hide Tally;
    var k, l := WindowPlace(x, y, a), WindowPlace(x, y, b);
    if k < l {
      TallyTwo(v, w, h, x, y, NOTHING, k, l);
    } else if l < k {
      TallyTwo(v, w, h, x, y, NOTHING, l, k);
    }
  }

  /** Which cell of the window it is. */
  function WindowPlace(x: int, y: int, c: (int, int)): (k: nat)
    requires -2 <= c.0 - x <= 2 && -2 <= c.1 - y <= 2
    ensures k < 25 && WindowX(x, k) == c.0 && WindowY(y, k) == c.1
  {
    5 * (c.0 - x + 2) + (c.1 - y + 2)
  }

  lemma {:induction false} TallyGrows(v: seq<Stuff>, w: nat, h: nat, x: int, y: int, what: Stuff, m: nat, n: nat)
    requires |v| == w * h && m <= n
    ensures Tally(v, w, h, x, y, what, m) <= Tally(v, w, h, x, y, what, n)
    decreases n
  {
    if m < n {
      TallyGrows(v, w, h, x, y, what, m, n - 1);
    }
  }

  lemma TallyTwo(v: seq<Stuff>, w: nat, h: nat, x: int, y: int, what: Stuff, k: nat, l: nat)
    requires |v| == w * h && k < l < 25
    requires Holds(v, w, h, WindowX(x, k), WindowY(y, k), what) == 1
    requires Holds(v, w, h, WindowX(x, l), WindowY(y, l), what) == 1
    ensures Tally(v, w, h, x, y, what, 25) >= 2
  {
    hide Holds;
    TallyGrows(v, w, h, x, y, what, k + 1, l);
    TallyGrows(v, w, h, x, y, what, l + 1, 25);
  }

  /** Blackening adds black cells to windows, and one to the window of each cell it blackens. */
  lemma {:induction false} MoreBlacks(before: seq<Stuff>, after: seq<Stuff>, w: nat, h: nat, x: int, y: int, n: nat)
    requires |before| == w * h && Blackened(before, after)
    ensures Tally(before, w, h, x, y, BLACK, n) <= Tally(after, w, h, x, y, BLACK, n)
    ensures n > 12 && Holds(before, w, h, x, y, BLACK) < Holds(after, w, h, x, y, BLACK) ==>
              Tally(before, w, h, x, y, BLACK, n) < Tally(after, w, h, x, y, BLACK, n)
  {
    if n > 0 {
      MoreBlacks(before, after, w, h, x, y, n - 1);
      KeptBlack(before, after, w, h, WindowX(x, n - 1), WindowY(y, n - 1));
    }
  }

  lemma KeptBlack(before: seq<Stuff>, after: seq<Stuff>, w: nat, h: nat, x: int, y: int)
    requires |before| == w * h && Blackened(before, after)
    ensures Holds(before, w, h, x, y, BLACK) <= Holds(after, w, h, x, y, BLACK)
  {
    if Inside(w, h, x, y) {
      AtBound(w, h, x, y);
    }
  }

  /** A cell blackened without explosions was red, and either had two empty cells in its window or has
      four more black ones there besides itself. */
  ghost predicate Spread(before: seq<Stuff>, after: seq<Stuff>, w: nat, h: nat, x: int, y: int)
    requires |before| == |after| == w * h
  {
    Inside(w, h, x, y) ==>
      (AtBound(w, h, x, y);
       var i := At(h, x, y);
       after[i] != before[i] ==>
         before[i] == RED && (Empties(before, w, h, x, y) > 1 || Tally(after, w, h, x, y, BLACK, 25) > 4))
  }

  /** A red cell that has become black, not more than six cells away in either direction. */
  ghost predicate Near(before: seq<Stuff>, after: seq<Stuff>, w: nat, h: nat, x: int, y: int, x': int, y': int)
    requires |before| == |after| == w * h
  {
    Inside(w, h, x', y') && x - 6 <= x' <= x + 6 && y - 6 <= y' <= y + 6
    && (AtBound(w, h, x', y'); before[At(h, x', y')] == RED && after[At(h, x', y')] == BLACK)
  }

  /** A cell blackened with explosions has such a cell near it. */
  ghost predicate Reached(before: seq<Stuff>, after: seq<Stuff>, w: nat, h: nat, x: int, y: int)
    requires |before| == |after| == w * h
  {
    Inside(w, h, x, y) ==>
      (AtBound(w, h, x, y);
       after[At(h, x, y)] != before[At(h, x, y)] ==> exists x', y' :: Near(before, after, w, h, x, y, x', y'))
  }

  /** What treating a cell means for the whole grid. */
  ghost predicate Treated(before: seq<Stuff>, after: seq<Stuff>, w: nat, h: nat, x: int, y: int, reach: nat)
    requires |before| == |after| == w * h && Inside(w, h, x, y)
  {
    && Blackened(before, after) && FarUnchanged(before, after, w, h, x, y, reach)
    && (AtRest(before, w, h, x, y) ==> after == before)
    && (AtBound(w, h, x, y); after != before ==> after[At(h, x, y)] == BLACK)
  }

  lemma SpreadStep(first: seq<Stuff>, before: seq<Stuff>, after: seq<Stuff>, w: nat, h: nat, x: int, y: int,
                   x': int, y': int)
    requires |first| == |before| == |after| == w * h && Inside(w, h, x, y) && Inside(w, h, x', y')
    requires Blackened(first, before) && EmptyKept(first, before) && Spread(first, before, w, h, x', y')
    requires Treated(before, after, w, h, x, y, 0)
    ensures Spread(first, after, w, h, x', y')
  {
    hide Tally, FarUnchanged, EmptyKept;
    AtBound(w, h, x', y');
    MoreBlacks(before, after, w, h, x', y', 25);
    FewerEmpties(first, before, w, h, x', y', 25);
    if (x', y') != (x, y) {
      assert after[At(h, x', y')] == before[At(h, x', y')] by {
        SameFarAway(before, after, w, h, x, y, 0, x', y');
      }
    }
  }

  lemma SameFarAway(before: seq<Stuff>, after: seq<Stuff>, w: nat, h: nat, x: int, y: int, reach: nat, x': int, y': int)
    requires |before| == |after| == w * h && FarUnchanged(before, after, w, h, x, y, reach) && Inside(w, h, x', y')
    requires !(x - reach <= x' <= x + reach && y - reach <= y' <= y + reach)
    ensures 0 <= At(h, x', y') < w * h && after[At(h, x', y')] == before[At(h, x', y')]
  {
    AtBound(w, h, x', y');
  }

  lemma ReachedStep(first: seq<Stuff>, before: seq<Stuff>, after: seq<Stuff>, w: nat, h: nat, x: int, y: int,
                    x': int, y': int)
    requires |first| == |before| == |after| == w * h && Inside(w, h, x, y) && Inside(w, h, x', y')
    requires Blackened(first, before) && Reached(first, before, w, h, x', y')
    requires Treated(before, after, w, h, x, y, 6)
    ensures Reached(first, after, w, h, x', y')
  {
    hide Tally, FarUnchanged;
    AtBound(w, h, x', y');
    AtBound(w, h, x, y);
    if before[At(h, x', y')] != first[At(h, x', y')] {
      var a, b :| Near(first, before, w, h, x', y', a, b);
      AtBound(w, h, a, b);
      assert Near(first, after, w, h, x', y', a, b);
    } else if after[At(h, x', y')] != before[At(h, x', y')] {
      if !(x - 6 <= x' <= x + 6 && y - 6 <= y' <= y + 6) {
        SameFarAway(before, after, w, h, x, y, 6, x', y');
      }
      assert Near(first, after, w, h, x', y', x, y);
    }
  }

  lemma OutsideKept(before: seq<Stuff>, after: seq<Stuff>, w: nat, h: nat, x: int, y: int)
    requires |before| == |after| == w * h && !Inside(w, h, x, y)
    ensures Spread(before, after, w, h, x, y) && Reached(before, after, w, h, x, y)
  {
  }

  lemma SpreadSame(v: seq<Stuff>, w: nat, h: nat)
    requires |v| == w * h
    ensures forall x, y :: Spread(v, v, w, h, x, y) && Reached(v, v, w, h, x, y)
  {
  }

  /** Without explosions two empty cells in the window of a red cell are reason enough. */
  lemma MustBlacken(before: seq<Stuff>, after: seq<Stuff>, w: nat, h: nat, x: int, y: int)
    requires |before| == |after| == w * h && Inside(w, h, x, y)
    requires Blackened(before, after) && EmptyKept(before, after) && Sheltered(after, w, h, x, y)
    requires (AtBound(w, h, x, y); before[At(h, x, y)] == RED) && Empties(before, w, h, x, y) > 1
    ensures (AtBound(w, h, x, y); after[At(h, x, y)] == BLACK)
  {
    AtBound(w, h, x, y);
    SameEmpties(before, after, w, h, x, y, 25);
  }

  lemma {:induction false} SameEmpties(before: seq<Stuff>, after: seq<Stuff>, w: nat, h: nat, x: int, y: int, n: nat)
    requires |before| == |after| == w * h && Blackened(before, after) && EmptyKept(before, after)
    ensures Tally(after, w, h, x, y, NOTHING, n) == Tally(before, w, h, x, y, NOTHING, n)
  {
    if n > 0 {
      SameEmpties(before, after, w, h, x, y, n - 1);
      SameEmpty(before, after, w, h, WindowX(x, n - 1), WindowY(y, n - 1));
    }
  }

  lemma SameEmpty(before: seq<Stuff>, after: seq<Stuff>, w: nat, h: nat, x: int, y: int)
    requires |before| == |after| == w * h && Blackened(before, after) && EmptyKept(before, after)
    ensures Holds(after, w, h, x, y, NOTHING) == Holds(before, w, h, x, y, NOTHING)
  {
    if Inside(w, h, x, y) {
      AtBound(w, h, x, y);
    }
  }

  // ---------------------------------------------------------------- the noise of a layer

  /** The noise of one layer: its value at the origin and at every cell. */
  datatype Noise = Noise(origin: real, samples: seq<real>)

  function Lowest(origin: real, s: seq<real>): real {
    if s == [] then origin
    else
      var low, last := Lowest(origin, s[..|s| - 1]), s[|s| - 1];
      if low < last then low else last
  }

  function Highest(origin: real, s: seq<real>): real {
    if s == [] then origin
    else
      var high, last := Highest(origin, s[..|s| - 1]), s[|s| - 1];
      if high < last then last else high
  }

  lemma {:induction false} Extremes(origin: real, s: seq<real>)
    ensures forall v :: v in s + [origin] ==> Lowest(origin, s) <= v <= Highest(origin, s)
    ensures Lowest(origin, s) in s + [origin] && Highest(origin, s) in s + [origin]
  {
    if s != [] {
      var front := s[..|s| - 1];
      Extremes(origin, front);
      assert s == front + [s[|s| - 1]];
      assert forall v :: v in s + [origin] <==> v in front + [origin] || v == s[|s| - 1];
    }
  }

  function Sum(s: seq<real>): real {
    if s == [] then 0.0 else Sum(s[..|s| - 1]) + s[|s| - 1]
  }

  function Average(s: seq<real>): real
    requires s != []
  {
    Sum(s) / |s| as real
  }

  /** A sample is low when it is less than so much of the range above the average. */
  predicate Low(noise: Noise, margin: real, i: nat)
    requires i < |noise.samples|
  {
    var range := Highest(noise.origin, noise.samples) - Lowest(noise.origin, noise.samples);
    noise.samples[i] < Average(noise.samples) + margin * range
  }

  function Share(v: real, low: real, high: real): real
    requires low < high
  {
    (v - low) / (high - low)
  }

  function Shares(s: seq<real>, low: real, high: real): real
    requires low < high
  {
    if s == [] then 0.0 else Shares(s[..|s| - 1], low, high) + Share(s[|s| - 1], low, high)
  }

  lemma ShareTimes(v: real, low: real, high: real)
    requires low < high
    ensures Share(v, low, high) * (high - low) == v - low
  {
  }

  lemma {:induction false} SharesTimes(s: seq<real>, low: real, high: real)
    requires low < high
    ensures Shares(s, low, high) * (high - low) == Sum(s) - |s| as real * low
  {
    if s != [] {
      var front, last := s[..|s| - 1], s[|s| - 1];
      SharesTimes(front, low, high);
      ShareTimes(last, low, high);
      var range := high - low;
      assert (Shares(front, low, high) + Share(last, low, high)) * range
          == Shares(front, low, high) * range + Share(last, low, high) * range;
      assert |s| as real * low == |front| as real * low + low;
    }
  }

  /** Comparing a share with the mean share and a margin is comparing the sample with the average. */
  lemma CutAtMean(noise: Noise, margin: real, i: nat)
    requires i < |noise.samples|
    requires Lowest(noise.origin, noise.samples) < Highest(noise.origin, noise.samples)
    ensures var s := noise.samples;
            var low, high := Lowest(noise.origin, s), Highest(noise.origin, s);
            Low(noise, margin, i) <==> Share(s[i], low, high) < Shares(s, low, high) / |s| as real + margin
  {
    hide Lowest, Highest, Sum, Shares, Share;
    var s, low, high := noise.samples, Lowest(noise.origin, noise.samples), Highest(noise.origin, noise.samples);
    SharesTimes(s, low, high);
    ShareTimes(s[i], low, high);
    Cut(Share(s[i], low, high), Shares(s, low, high), s[i], Sum(s), |s| as real, low, high - low, margin);
  }

  lemma Cut(share: real, shares: real, v: real, sum: real, n: real, low: real, range: real, margin: real)
    requires n > 0.0 && range > 0.0 && share * range == v - low && shares * range == sum - n * low
    ensures v < sum / n + margin * range <==> share < shares / n + margin
  {
    var mean := shares / n;
    assert mean * n == shares;
    assert mean * range * n == mean * n * range;
    assert mean * range == sum / n - low;
    assert (mean + margin) * range == sum / n - low + margin * range;
    LessTimes(share, mean + margin, range);
  }

  lemma LessTimes(a: real, b: real, c: real)
    requires c > 0.0
    ensures a < b <==> a * c < b * c
  {
    assert (b - a) * c == b * c - a * c;
  }

  lemma NoSamples(origin: real)
    ensures Lowest(origin, []) == Highest(origin, []) == origin
    ensures forall low, high :: low < high ==> Shares([], low, high) == 0.0
  {
  }

  lemma OneMoreSample(origin: real, s: seq<real>, i: nat)
    requires i < |s|
    ensures Lowest(origin, s[..i + 1]) == if Lowest(origin, s[..i]) < s[i] then Lowest(origin, s[..i]) else s[i]
    ensures Highest(origin, s[..i + 1]) == if Highest(origin, s[..i]) < s[i] then s[i] else Highest(origin, s[..i])
    ensures forall low, high :: low < high ==>
              Shares(s[..i + 1], low, high) == Shares(s[..i], low, high) + Share(s[i], low, high)
  {
    assert s[..i + 1][..i] == s[..i];
  }

  /** When all samples are equal none is low. */
  lemma AllEqual(noise: Noise, margin: real)
    requires Lowest(noise.origin, noise.samples) == Highest(noise.origin, noise.samples)
    ensures forall i :: 0 <= i < |noise.samples| ==> !Low(noise, margin, i)
  {
    var s, v := noise.samples, noise.origin;
    Extremes(v, s);
    forall i | 0 <= i < |s|
      ensures s[i] == v
    {
      assert s[i] in s + [v] && v in s + [v];
    }
    if s != [] {
      SameSum(s, v);
    }
  }

  lemma {:induction false} SameSum(s: seq<real>, v: real)
    requires forall i :: 0 <= i < |s| ==> s[i] == v
    ensures Sum(s) == |s| as real * v
  {
    if s != [] {
      SameSum(s[..|s| - 1], v);
    }
  }

  // ---------------------------------------------------------------- the passes

  class Sectors {
    const width: nat
    const height: nat
    var value: array<Stuff>

    ghost predicate Valid()
      reads this
    {
      value.Length == width * height
    }

    constructor (width: nat, height: nat)
      ensures Valid() && fresh(value) && this.width == width && this.height == height
      ensures forall i :: 0 <= i < value.Length ==> value[i] == NOTHING
    {
      this.width, this.height := width, height;
      value := new Stuff[width * height](_ => NOTHING);
    }

    /** `generate_enoise` with `resample`: noise scaled to [0, 1], then cut at its mean plus a margin.
        When all samples are equal the scaling gives no number, no comparison holds and all is rock. */
    method GenerateNoise(noise: Noise, margin: real)
      requires Valid() && |noise.samples| == value.Length
      modifies value
      ensures forall i :: 0 <= i < value.Length ==> value[i] == if Low(noise, margin, i) then NOTHING else RED
    {
      hide Low, Shares, Lowest, Highest;
      var n := value.Length;
      var min, max := noise.origin, noise.origin;
      NoSamples(noise.origin);
      assert noise.samples[..0] == [];
      assert noise.samples[..n] == noise.samples;
      for i := 0 to n
        invariant min == Lowest(noise.origin, noise.samples[..i]) && max == Highest(noise.origin, noise.samples[..i])
      {
        OneMoreSample(noise.origin, noise.samples, i);
        var v := noise.samples[i];
        max := if max < v then v else max;
        min := if min < v then min else v;
      }
      ghost var low, high := Lowest(noise.origin, noise.samples), Highest(noise.origin, noise.samples);
      if max == min {
        for i := 0 to n
          invariant forall k :: 0 <= k < i ==> value[k] == RED
        {
          value[i] := RED;
        }
        AllEqual(noise, margin);
        return;
      }
      Extremes(noise.origin, noise.samples);
      var scaled, sum := new real[n], 0.0;
      for i := 0 to n
        invariant forall k :: 0 <= k < i ==> scaled[k] == Share(noise.samples[k], low, high)
        invariant sum == Shares(noise.samples[..i], low, high)
      {
        OneMoreSample(noise.origin, noise.samples, i);
        scaled[i] := (noise.samples[i] - min) / (max - min);
        sum := sum + scaled[i];
      }
      for i := 0 to n
        modifies value
        invariant forall k :: 0 <= k < i ==> value[k] == if Low(noise, margin, k) then NOTHING else RED
      {
        CutAtMean(noise, margin, i);
        value[i] := if scaled[i] < sum / n as real + margin then NOTHING else RED;
      }
    }

    /** `add_w`: a further layer shows only where nothing lies yet. */
    method AddLayer(noise: Noise, margin: real)
      requires Valid() && |noise.samples| == value.Length
      modifies value
      ensures forall i :: 0 <= i < value.Length ==>
                value[i] == if old(value[i]) != NOTHING then old(value[i])
                            else if Low(noise, margin, i) then NOTHING else RED
    {
      var under := value[..];
      GenerateNoise(noise, margin);
      for i := 0 to value.Length
        invariant forall k :: 0 <= k < value.Length ==>
                    value[k] == if k < i && under[k] != NOTHING then under[k]
                                else if Low(noise, margin, k) then NOTHING else RED
      {
        if under[i] != NOTHING {
          value[i] := under[i];
        }
      }
    }

    /** The window of a red cell, counted as the source counts it. */
    method CountWindow(x: nat, y: nat) returns (blacks: nat, empties: nat)
      requires Valid() && Inside(width, height, x, y)
      ensures empties == Empties(value[..], width, height, x, y)
      ensures blacks == Tally(value[..], width, height, x, y, BLACK, 25)
    {
      hide Inside, At;
      blacks, empties := 0, 0;
      for xx := -2 to 3
        invariant empties == Tally(value[..], width, height, x, y, NOTHING, (xx + 2) * 5)
        invariant blacks == Tally(value[..], width, height, x, y, BLACK, (xx + 2) * 5)
      {
        for yy := -2 to 3
          invariant empties == Tally(value[..], width, height, x, y, NOTHING, (xx + 2) * 5 + (yy + 2))
          invariant blacks == Tally(value[..], width, height, x, y, BLACK, (xx + 2) * 5 + (yy + 2))
        {
          ghost var k := (xx + 2) * 5 + (yy + 2);
          assert WindowX(x, k) == x + xx && WindowY(y, k) == y + yy;
          if Inside(width, height, x + xx, y + yy) {
            AtBound(width, height, x + xx, y + yy);
            var v := value[At(height, x + xx, y + yy)];
            if v == BLACK {
              blacks := blacks + 1;
            } else if v == NOTHING {
              empties := empties + 1;
            }
          }
        }
      }
    }

    method Blacken(x: nat, y: nat)
      requires Valid() && Inside(width, height, x, y)
      modifies value
      ensures 0 <= At(height, x, y) < value.Length && value[..] == old(value[..])[At(height, x, y) := BLACK]
      ensures FarUnchanged(old(value[..]), value[..], width, height, x, y, 0)
    {
      AtBound(width, height, x, y);
      ghost var before := value[..];
      value[At(height, x, y)] := BLACK;
      forall x', y' | Inside(width, height, x', y') && !(x' == x && y' == y)
        ensures (AtBound(width, height, x', y'); value[..][At(height, x', y')] == before[At(height, x', y')])
      {
        AtBound(width, height, x', y');
        if At(height, x', y') == At(height, x, y) {
          AtUnique(width, height, x, y, x', y');
        }
      }
    }

    /** `boom`: black rock spreads up to six cells around a cell, over empty cells and red ones. */
    method Boom(x: nat, y: nat)
      requires Valid()
      modifies value
      ensures Blackened(old(value[..]), value[..])
      ensures FarUnchanged(old(value[..]), value[..], width, height, x, y, 6)
    {
      var b := NextRange(3, 7);
      for xx := -b to b + 1
        invariant Blackened(old(value[..]), value[..])
        invariant FarUnchanged(old(value[..]), value[..], width, height, x, y, 6)
      {
        for yy := -b to b + 1
          invariant Blackened(old(value[..]), value[..])
          invariant FarUnchanged(old(value[..]), value[..], width, height, x, y, 6)
        {
          if Inside(width, height, x + xx, y + yy) {
            AtBound(width, height, x + xx, y + yy);
            var i := At(height, x + xx, y + yy);
            var roll := NextRange(1, 101);
            if (value[i] == NOTHING && roll > 60) || (value[i] == RED && roll as real < Chance(y)) {
              Blacken(x + xx, y + yy);
            }
          }
        }
      }
    }

    /** The treatment of one cell in a cleaning pass. */
    method CleanCell(x: nat, y: nat, booming: bool)
      requires Valid() && Inside(width, height, x, y)
      modifies value
      ensures Treated(old(value[..]), value[..], width, height, x, y, if booming then 6 else 0)
      ensures !booming ==> EmptyKept(old(value[..]), value[..])
      ensures Sheltered(value[..], width, height, x, y)
    {
      AtBound(width, height, x, y);
      var i := At(height, x, y);
      if value[i] != RED { return; }
      var blacks, empties := CountWindow(x, y);
      var roll := 0;
      if 3 < blacks {
        roll := NextRange(1, 101);
      }
      if (3 < blacks && roll > 60) || empties > 1 {
        Blacken(x, y);
        ghost var now := value[..];
        var again := NextRange(1, 101);
        if again > 95 && booming {
          Boom(x, y);
        }
        assert Blackened(now, value[..]);
      }
    }

    /** The rows a pass has behind it: the first ones going up, the last ones going down. */
    static predicate RowDone(even: bool, y: int, k: int, h: int) {
      if even then y < k else y >= h - k
    }

    /** `clean_cs`: rows upwards on even passes, downwards on odd ones. Whatever the direction and
        the explosions, after the pass no red cell has two empty cells in its window, and what was
        blackened was blackened for a reason. */
    method CleanPass(j: nat, booming: bool)
      requires Valid()
      modifies value
      ensures AllSheltered(value[..], width, height)
      ensures Blackened(old(value[..]), value[..])
      ensures !booming ==> EmptyKept(old(value[..]), value[..])
      ensures forall x, y :: if booming then Reached(old(value[..]), value[..], width, height, x, y)
                             else Spread(old(value[..]), value[..], width, height, x, y)
    {
      hide Spread, Reached, Treated;
      ghost var first := value[..];
      var even := j % 2 == 0;
      SpreadSame(first, width, height);
      for k := 0 to height
        invariant Passing(first, value[..], booming)
        invariant forall x, y :: RowDone(even, y, k, height) ==> Sheltered(value[..], width, height, x, y)
      {
        var row := if even then k else height - 1 - k;
        for x := 0 to width
          invariant Passing(first, value[..], booming)
          invariant forall x', y :: RowDone(even, y, k, height) || (y == row && x' < x) ==>
                      Sheltered(value[..], width, height, x', y)
        {
          ghost var before := value[..];
          CleanCell(x, row, booming);
          PassingStep(first, before, value[..], booming, x, row);
          forall x', y | RowDone(even, y, k, height) || (y == row && x' < x + 1)
            ensures Sheltered(value[..], width, height, x', y)
          {
            if !(y == row && x' == x) {
              StillSheltered(before, value[..], width, height, x', y);
            }
          }
        }
      }
    }

    /** What a pass has done so far. */
    ghost predicate Passing(first: seq<Stuff>, now: seq<Stuff>, booming: bool) {
      && |first| == |now| == width * height && Blackened(first, now)
      && (!booming ==> EmptyKept(first, now))
      && forall x, y :: if booming then Reached(first, now, width, height, x, y)
                        else Spread(first, now, width, height, x, y)
    }

    lemma PassingStep(first: seq<Stuff>, before: seq<Stuff>, after: seq<Stuff>, booming: bool, x: nat, y: nat)
      requires |after| == width * height && Inside(width, height, x, y)
      requires Passing(first, before, booming)
      requires Treated(before, after, width, height, x, y, if booming then 6 else 0)
      requires !booming ==> EmptyKept(before, after)
      ensures Passing(first, after, booming) && Blackened(before, after)
    {
      hide Spread, Reached;
      forall x', y'
        ensures if booming then Reached(first, after, width, height, x', y')
                else Spread(first, after, width, height, x', y')
      {
        if !Inside(width, height, x', y') {
          OutsideKept(first, after, width, height, x', y');
        } else if booming {
          ReachedStep(first, before, after, width, height, x, y, x', y');
        } else {
          SpreadStep(first, before, after, width, height, x, y, x', y');
        }
      }
    }

    /** Red rock turns black by depth, with a chance that falls with the row: from row 10358 on, none does. */
    method Deepen()
      requires Valid()
      modifies value
      ensures Blackened(old(value[..]), value[..]) && EmptyKept(old(value[..]), value[..])
      ensures forall x, y :: Inside(width, height, x, y) && y >= 10358 ==>
                (AtBound(width, height, x, y); value[..][At(height, x, y)] == old(value[..])[At(height, x, y)])
    {
      ghost var before := value[..];
      for x := 0 to width
        invariant Blackened(before, value[..]) && EmptyKept(before, value[..])
        invariant DeepKept(before, value[..])
      {
        for y := 0 to height
          invariant Blackened(before, value[..]) && EmptyKept(before, value[..])
          invariant DeepKept(before, value[..])
        {
          AtBound(width, height, x, y);
          var i := At(height, x, y);
          var roll := NextRange(1, 101);
          if value[i] == RED && roll as real < Chance(y) {
            ghost var now := value[..];
            Blacken(x, y);
            DeepStep(before, now, value[..], x, y);
          }
        }
      }
    }

    ghost predicate DeepKept(before: seq<Stuff>, after: seq<Stuff>) {
      && |before| == |after| == width * height
      && forall x, y :: Inside(width, height, x, y) && y >= 10358 ==>
           (AtBound(width, height, x, y); after[At(height, x, y)] == before[At(height, x, y)])
    }

    lemma DeepStep(before: seq<Stuff>, now: seq<Stuff>, after: seq<Stuff>, x: nat, y: nat)
      requires |after| == width * height && DeepKept(before, now) && Inside(width, height, x, y) && y < 10358
      requires FarUnchanged(now, after, width, height, x, y, 0)
      ensures DeepKept(before, after)
    {
      forall x', y' | Inside(width, height, x', y') && y' >= 10358
        ensures (AtBound(width, height, x', y'); after[At(height, x', y')] == before[At(height, x', y')])
      {
        SameFarAway(now, after, width, height, x, y, 0, x', y');
      }
    }

    /** `add`: one pass with explosions, five without, then black rock by depth. */
    method Add()
      requires Valid()
      modifies value
      ensures AllSheltered(value[..], width, height)
      ensures Blackened(old(value[..]), value[..])
    {
      CleanPass(0, true);
      for i := 1 to 6
        invariant AllSheltered(value[..], width, height)
        invariant Blackened(old(value[..]), value[..])
      {
        CleanPass(i, false);
      }
      ghost var before := value[..];
      Deepen();
      AllStillSheltered(before, value[..], width, height);
    }

    /** `clean`: some rock, black or red, crumbles to nothing; nothing else changes. */
    method Clean()
      requires Valid()
      modifies value
      ensures forall i :: 0 <= i < value.Length ==> value[i] == old(value[i]) || value[i] == NOTHING
    {
      for y := 0 to height
        invariant forall i :: 0 <= i < value.Length ==> value[i] == old(value[i]) || value[i] == NOTHING
      {
        for x := 0 to width
          invariant forall i :: 0 <= i < value.Length ==> value[i] == old(value[i]) || value[i] == NOTHING
        {
          AtBound(width, height, x, y);
          var i := At(height, x, y);
          var roll := NextRange(1, 101);
          if value[i] == BLACK && roll > 90 {
            value[i] := NOTHING;
          } else if value[i] == RED && roll > 95 {
            value[i] := NOTHING;
          }
        }
      }
    }
  }

  function Code(v: Stuff): byte {
    if v == BLACK then BLACK_ROCK else if v == RED then RED_ROCK else EMPTY_CELL
  }

  /** Rock present at an earlier stage is rock at a later one. */
  ghost predicate RockStays(before: seq<Stuff>, after: seq<Stuff>) {
    |before| == |after| && forall i :: 0 <= i < |before| && before[i] != NOTHING ==> after[i] != NOTHING
  }

  /** A layer over another: what lies there stays, and of the rest all is red rock but where the noise is
      low, less than 45 hundredths of its range above its average. */
  ghost predicate Layered(under: seq<Stuff>, noise: Noise, layer: seq<Stuff>) {
    && |under| == |layer| == |noise.samples|
    && forall i :: 0 <= i < |layer| ==>
         layer[i] == if under[i] != 0 then under[i] else if Low(noise, 0.45, i) then 0 else 1
  }

  /** Two empty places around a cell are the same place. */
  ghost predicate OneEmptyAround(v: seq<Stuff>, w: nat, h: nat, x: int, y: int) {
    |v| == w * h && forall a, b, c, d ::
      EmptyNear(v, w, h, x, y, a, b) && EmptyNear(v, w, h, x, y, c, d) ==> (a, b) == (c, d)
  }

  /** An empty cell, not more than two away. */
  ghost predicate EmptyNear(v: seq<Stuff>, w: nat, h: nat, x: int, y: int, a: int, b: int)
    requires |v| == w * h
  {
    && 0 <= a < w && 0 <= b < h && x - 2 <= a <= x + 2 && y - 2 <= b <= y + 2
    && (AtBound(w, h, a, b); v[a * h + b] == 0)
  }

  /** `generate_skeleton`. `layers` are the grids after each noise layer and `rocky` the grid before
      rock crumbles: rock is never erased up to there. A cell of the result is the red rock or the black
      rock of that grid, or empty, and red rock had at most one empty cell around it. */
  method GenerateSkeleton(w: nat, h: nat, noise: seq<Noise>)
    returns (cells: seq<byte>, ghost layers: seq<seq<Stuff>>, ghost rocky: seq<Stuff>)
    requires |noise| == 4 && forall k :: 0 <= k < 4 ==> |noise[k].samples| == w * h
    ensures |cells| == w * h && forall i :: 0 <= i < w * h ==> cells[i] in {0, 117, 114}
    ensures |rocky| == w * h && |layers| == 4
    ensures Layered(seq(w * h, _ => 0), noise[0], layers[0])
    ensures forall k :: 1 <= k < 4 ==> Layered(layers[k - 1], noise[k], layers[k])
    ensures RockStays(layers[3], rocky)
    ensures forall i :: 0 <= i < w * h && cells[i] == 117 ==> rocky[i] == 1
    ensures forall i :: 0 <= i < w * h && cells[i] == 114 ==> rocky[i] == 2
    ensures forall i :: 0 <= i < w * h && rocky[i] == 0 ==> cells[i] == 0
    ensures forall x, y :: 0 <= x < w && 0 <= y < h && (AtBound(w, h, x, y); cells[x * h + y] == 117) ==>
              OneEmptyAround(rocky, w, h, x, y)
  {
    hide AllSheltered, OneEmptyAround, Low;
    var s := new Sectors(w, h);
    s.GenerateNoise(noise[0], 0.45);
    layers := [s.value[..]];
    s.AddLayer(noise[1], 0.45);
    layers := layers + [s.value[..]];
    s.AddLayer(noise[2], 0.45);
    layers := layers + [s.value[..]];
    s.AddLayer(noise[3], 0.45);
    layers := layers + [s.value[..]];
    s.Add();
    rocky := s.value[..];
    s.Clean();
    cells := seq(w * h, i requires 0 <= i < w * h && s.value.Length == w * h reads s, s.value => Code(s.value[i]));
    Encoded(w, h, rocky, s.value[..], cells);
  }

  /** The bytes of a grid that differs from another one where rock crumbled. */
  lemma Encoded(w: nat, h: nat, rocky: seq<Stuff>, left: seq<Stuff>, cells: seq<byte>)
    requires |rocky| == |left| == |cells| == w * h && AllSheltered(rocky, w, h)
    requires forall i :: 0 <= i < w * h ==> left[i] == rocky[i] || left[i] == NOTHING
    requires forall i :: 0 <= i < w * h ==> cells[i] == Code(left[i])
    ensures forall i :: 0 <= i < w * h && cells[i] == 117 ==> rocky[i] == 1
    ensures forall i :: 0 <= i < w * h && cells[i] == 114 ==> rocky[i] == 2
    ensures forall i :: 0 <= i < w * h ==> cells[i] in {0, 117, 114} && (rocky[i] == 0 ==> cells[i] == 0)
    ensures forall x, y :: 0 <= x < w && 0 <= y < h && (AtBound(w, h, x, y); cells[x * h + y] == 117) ==>
              OneEmptyAround(rocky, w, h, x, y)
  {
    hide AllSheltered, OneEmptyAround;
    forall x, y | 0 <= x < w && 0 <= y < h && (AtBound(w, h, x, y); cells[x * h + y] == 117)
      ensures OneEmptyAround(rocky, w, h, x, y)
    {
      AtBound(w, h, x, y);
      RedHasOne(rocky, w, h, x, y);
    }
  }

  lemma RedHasOne(v: seq<Stuff>, w: nat, h: nat, x: int, y: int)
    requires |v| == w * h && AllSheltered(v, w, h) && Inside(w, h, x, y)
    requires (AtBound(w, h, x, y); v[At(h, x, y)] == RED)
    ensures OneEmptyAround(v, w, h, x, y)
  {
    hide Sheltered;
    forall a, b, c, d | EmptyNear(v, w, h, x, y, a, b) && EmptyNear(v, w, h, x, y, c, d)
      ensures (a, b) == (c, d)
    {
      ShelteredCells(v, w, h, x, y, (a, b), (c, d));
    }
  }
}
