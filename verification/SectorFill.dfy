/** Filling one sector: random value ranges are drawn for the sector's cell types, noise is sampled
    until every range gets its share, and the types are written to the map. */
module SectorFill {
  import opened Wrappers
  import opened LittleEndian
  import opened Sequences
  import opened GridIndex
  import opened Randomness
  import opened SectorPalette

  const EMPTY: byte := 0
  const MAX_FILL_ATTEMPTS := 200
  const GUARD := 10_000

  // ---------------------------------------------------------------- the types of a sector

  /** Up to `wanted` further members of a palette, none chosen twice; at least one, if none was there. */
  method Choose(chosen: seq<byte>, palette: seq<byte>, wanted: nat) returns (r: seq<byte>)
    requires palette != [] && NoDup(chosen)
    ensures NoDup(r) && chosen <= r && |r| <= |chosen| + wanted
    ensures forall i :: |chosen| <= i < |r| ==> r[i] in palette
    ensures wanted > 0 && (forall i :: 0 <= i < |palette| ==> palette[i] !in chosen) ==> |r| > |chosen|
  {
    r := chosen;
    var got, guard := 0, 0;
    while got < wanted && guard < GUARD
      invariant got <= wanted && guard <= GUARD
      invariant NoDup(r) && chosen <= r && |r| == |chosen| + got
      invariant forall i :: |chosen| <= i < |r| ==> r[i] in palette
      invariant guard > 0 && (forall i :: 0 <= i < |palette| ==> palette[i] !in chosen) ==> got > 0
      decreases GUARD - guard
    {
      guard := guard + 1;
      var k := NextRange(0, |palette|);
      if palette[k] !in r {
        NoDupAppend(r, palette[k]);
        r := r + [palette[k]];
        got := got + 1;
      }
    }
  }

  /** Rocks first, then crystals: of each at least one and not all, unless there is only one. */
  ghost predicate Mixed(tier: nat, args: seq<byte>, m: nat) {
    var types, crystals := TypesPalette(tier), CrystalPalette(tier, false);
    && 1 <= m < |args| && NoDup(args)
    && (m < |types| || |types| == 1) && (|args| - m < |crystals| || |crystals| == 1)
    && (forall i :: 0 <= i < m ==> args[i] in types) && (forall i :: m <= i < |args| ==> args[i] in crystals)
  }

  /** `generate_insides`: all crystals of the tier, or a choice of rocks and a choice of crystals. */
  method GenerateInsides(tier: nat) returns (args: seq<byte>)
    ensures args == CrystalPalette(tier, true) || exists m :: Mixed(tier, args, m)
    ensures args != [] && forall i :: 0 <= i < |args| ==> InPalette(tier, args[i]) && args[i] != EMPTY
  {
    PalettesUsable(tier);
    var roll := NextRange(1, 101);
    if roll >= 80 {
      return CrystalPalette(tier, true);
    }
    var types, crystals := TypesPalette(tier), CrystalPalette(tier, false);
    hide TypesPalette, CrystalPalette;
    var rocks := NextRange(1, |types|);
    var gems := NextRange(1, |crystals|);
    var some := Choose([], types, rocks);
    args := Choose(some, crystals, gems);
    assert Mixed(tier, args, |some|);
  }

  // ---------------------------------------------------------------- parts

  /** A type and the closed range of noise values that gives it. */
  datatype Part = Part(key: byte, start: real, end: real)

  predicate Overlap(p: Part, start: real, end: real) {
    p.start <= end && p.end >= start
  }

  ghost predicate PairwiseApart(parts: seq<Part>) {
    forall i, j :: 0 <= i < j < |parts| ==> !Overlap(parts[i], parts[j].start, parts[j].end)
  }

  /** A range starts below 1 and is shorter than 1. */
  predicate Proper(p: Part) {
    0.0 <= p.start < 1.0 && p.start <= p.end < p.start + 1.0
  }

  /** The parts are for these types in this order, are proper ranges and do not meet. */
  ghost predicate PartsFor(parts: seq<Part>, args: seq<byte>) {
    && |parts| == |args|
    && (forall i :: 0 <= i < |parts| ==> parts[i].key == args[i] && Proper(parts[i]))
    && PairwiseApart(parts)
  }

  /** `random_sized_parts`: each range is redrawn until it meets no earlier one. The redraws have no
      bound of their own; `budget` is how many draws the generator still has. */
  method RandomSizedParts(args: seq<byte>, budget: nat) returns (parts: Option<seq<Part>>, left: nat)
    ensures parts.Some? ==> PartsFor(parts.value, args)
    ensures left <= budget && (parts.None? ==> left == 0)
  {
    left := budget;
    var placed: seq<Part> := [];
    for i := 0 to |args|
      invariant PartsFor(placed, args[..i]) && left <= budget
    {
      var start, end := 0.0, 0.0;
      var apart := false;
      while !apart
        invariant left <= budget && (apart ==> Proper(Part(0, start, end)))
        invariant apart ==> forall k :: 0 <= k < |placed| ==> !Overlap(placed[k], start, end)
        decreases !apart, left
      {
        if left == 0 { return None, 0; }
        left := left - 1;
        start := NextReal();
        var length := NextReal();
        end := start + length;
        apart := forall k :: 0 <= k < |placed| ==> !Overlap(placed[k], start, end);
      }
      placed := placed + [Part(args[i], start, end)];
      assert args[..i + 1] == args[..i] + [args[i]];
    }
    assert args[..|args|] == args;
    parts := Some(placed);
  }

  // ---------------------------------------------------------------- sampling

  /** A noise value scaled to its sector; with all values equal the division gives no number. */
  function Scaled(v: real, min: real, max: real): Option<real> {
    if max == min then None else Some((v - min) / (max - min))
  }

  /** Zero at the least value, one at the greatest, and in proportion between and beyond them. */
  lemma ScaledExactly(v: real, min: real, max: real)
    ensures Scaled(v, min, max).Some? <==> min != max
    ensures min != max ==> v == min + Scaled(v, min, max).value * (max - min)
  {
    if min != max {
      var range := max - min;
      assert (v - min) / range * range == v - min;
    }
  }

  predicate Within(p: Part, v: Option<real>) {
    v.Some? && v.value >= p.start && v.value <= p.end
  }

  /** The type of a cell after the parts have been gone through: the last part that holds its value,
      or the type it had. */
  function TypeAfter(parts: seq<Part>, v: Option<real>, before: byte): byte {
    if parts == [] then before
    else if Within(parts[|parts| - 1], v) then parts[|parts| - 1].key
    else TypeAfter(parts[..|parts| - 1], v, before)
  }

  /** Parts that do not meet leave no choice: a part that holds the value is the one that decides. */
  lemma {:induction false} OnlyMatch(parts: seq<Part>, v: Option<real>, before: byte, i: nat)
    requires PairwiseApart(parts) && i < |parts| && v.Some? && parts[i].start <= v.value <= parts[i].end
    ensures TypeAfter(parts, v, before) == parts[i].key
    ensures forall k :: 0 <= k < |parts| && parts[k].start <= v.value <= parts[k].end ==> k == i
  {
    if i < |parts| - 1 {
      OnlyMatch(parts[..|parts| - 1], v, before, i);
    }
  }

  lemma {:induction false} NoMatch(parts: seq<Part>, v: Option<real>, before: byte)
    requires v.Some? ==> forall i :: 0 <= i < |parts| ==> v.value < parts[i].start || v.value > parts[i].end
    ensures TypeAfter(parts, v, before) == before
  {
    if parts != [] {
      NoMatch(parts[..|parts| - 1], v, before);
    }
  }

  /** One count for each cell and part: the type the cell has just after that part was looked at. */
  function CellCounts(parts: seq<Part>, v: Option<real>, before: byte, n: nat): (m: multiset<byte>)
    requires n <= |parts|
    ensures |m| == n
  {
    if n == 0 then multiset{}
    else CellCounts(parts, v, before, n - 1) + multiset{TypeAfter(parts[..n], v, before)}
  }

  function AllCounts(parts: seq<Part>, vs: seq<Option<real>>, before: seq<byte>): multiset<byte>
    requires |vs| == |before|
  {
    if vs == [] then multiset{}
    else
      AllCounts(parts, vs[..|vs| - 1], before[..|vs| - 1])
      + CellCounts(parts, vs[|vs| - 1], before[|vs| - 1], |parts|)
  }

  /** A cell is counted once a part: as what it was before, */
  lemma {:induction false} CountedBefore(parts: seq<Part>, v: Option<real>, before: byte, n: nat)
    requires n <= |parts|
    requires v.Some? ==> forall k :: 0 <= k < n ==> v.value < parts[k].start || v.value > parts[k].end
    ensures CellCounts(parts, v, before, n) == multiset{}[before := n]
  {
    hide TypeAfter;
    if n > 0 {
      NoMatch(parts[..n], v, before);
      CountedBefore(parts, v, before, n - 1);
    }
  }

  /** and as the type of the part that holds its value from there on. */
  lemma {:induction false} CountedAfter(parts: seq<Part>, v: Option<real>, before: byte, i: nat, n: nat)
    requires PairwiseApart(parts) && i < n <= |parts| && v.Some? && parts[i].start <= v.value <= parts[i].end
    ensures CellCounts(parts, v, before, n) == multiset{}[before := i] + multiset{}[parts[i].key := n - i]
  {
    hide TypeAfter;
    OnlyMatch(parts[..n], v, before, i);
    assert parts[..n][i] == parts[i];
    if n > i + 1 {
      CountedAfter(parts, v, before, i, n - 1);
    } else {
      CountedBefore(parts, v, before, i);
    }
  }

  /** The counts of a sample, cell after cell. */
  lemma CellsCounted(parts: seq<Part>, vs: seq<Option<real>>, before: seq<byte>, v: Option<real>, b: byte)
    requires |vs| == |before|
    ensures AllCounts(parts, [], []) == multiset{}
    ensures AllCounts(parts, vs + [v], before + [b]) ==
            AllCounts(parts, vs, before) + CellCounts(parts, v, b, |parts|)
  {
    assert (vs + [v])[..|vs|] == vs && (before + [b])[..|vs|] == before;
  }

  lemma {:induction false} AllCountsSize(parts: seq<Part>, vs: seq<Option<real>>, before: seq<byte>)
    requires |vs| == |before|
    ensures |AllCounts(parts, vs, before)| == |vs| * |parts|
  {
    if vs == [] {
    } else {
      var front := AllCounts(parts, vs[..|vs| - 1], before[..|vs| - 1]);
      AllCountsSize(parts, vs[..|vs| - 1], before[..|vs| - 1]);
      var last := CellCounts(parts, vs[|vs| - 1], before[|vs| - 1], |parts|);
      assert |AllCounts(parts, vs, before)| == |front| + |last| by {
        hide CellCounts;
      }
      OneRowMore(|vs|, |parts|);
    }
  }

  lemma OneRowMore(rows: nat, columns: nat)
    ensures rows * columns == (rows - 1) * columns + columns
  {
  }

  /** A list of counters with one entry a type. */
  type Counts = seq<(byte, nat)>

  ghost predicate Represents(c: Counts, m: multiset<byte>) {
    && (forall i, j :: 0 <= i < j < |c| ==> c[i].0 != c[j].0)
    && (forall i :: 0 <= i < |c| ==> m[c[i].0] == c[i].1 > 0)
    && (forall t :: t in m ==> exists i :: 0 <= i < |c| && c[i].0 == t)
  }

  /** The counter of a type, found or added. */
  method Increment(c: Counts, t: byte, ghost m: multiset<byte>) returns (r: Counts)
    requires Represents(c, m)
    ensures Represents(r, m + multiset{t})
  {
    for i := 0 to |c|
      invariant forall k :: 0 <= k < i ==> c[k].0 != t
    {
      if c[i].0 == t {
        r := c[i := (t, c[i].1 + 1)];
        forall u | u in m + multiset{t}
          ensures exists k :: 0 <= k < |r| && r[k].0 == u
        {
          if u != t {
            var k :| 0 <= k < |c| && c[k].0 == u;
            assert r[k].0 == u;
          } else {
            assert r[i].0 == u;
          }
        }
        return;
      }
    }
    r := c + [(t, 1)];
    assert r[|c|].0 == t;
    forall u | u in m + multiset{t}
      ensures exists k :: 0 <= k < |r| && r[k].0 == u
    {
      if u in m {
        var k :| 0 <= k < |c| && c[k].0 == u;
        assert r[k].0 == u;
      }
    }
  }

  /** `fill_noise_to_sector`, for the values it returns: one for each cell, within the bounds it
      returns with them. */
  method FillNoise(n: nat) returns (values: array<real>, min: real, max: real)
    ensures fresh(values) && values.Length == n && min <= max
    ensures forall i :: 0 <= i < n ==> min <= values[i] <= max
  {
    values := new real[n];
    var origin := Sample();
    min, max := origin, origin;
    for i := 0 to n
      invariant min <= max
      invariant forall k :: 0 <= k < i ==> min <= values[k] <= max
    {
      var v := Sample();
      max := if max < v then v else max;
      min := if min < v then min else v;
      values[i] := v;
    }
  }

  ghost function ScaledAll(values: seq<real>, min: real, max: real): (r: seq<Option<real>>)
    ensures |r| == |values|
    ensures forall i :: 0 <= i < |r| ==> r[i] == Scaled(values[i], min, max)
  {
    seq(|values|, i requires 0 <= i < |values| => Scaled(values[i], min, max))
  }

  lemma OnePart(parts: seq<Part>, v: Option<real>, before: byte, j: nat, m: multiset<byte>)
    requires j < |parts|
    ensures var t := TypeAfter(parts[..j + 1], v, before);
            && t == (if Within(parts[j], v) then parts[j].key else TypeAfter(parts[..j], v, before))
            && m + CellCounts(parts, v, before, j) + multiset{t} == m + CellCounts(parts, v, before, j + 1)
  {
    assert parts[..j + 1][..j] == parts[..j];
  }

  /** The loop over the parts for one cell. */
  method TypeCell(types: array<byte>, i: nat, v: Option<real>, parts: seq<Part>,
                  counts: Counts, ghost m: multiset<byte>)
    returns (r: Counts)
    requires i < types.Length && Represents(counts, m)
    modifies types
    ensures types[i] == TypeAfter(parts, v, old(types[i]))
    ensures forall k :: 0 <= k < types.Length && k != i ==> types[k] == old(types[k])
    ensures Represents(r, m + CellCounts(parts, v, old(types[i]), |parts|))
  {
    hide Represents;
    r := counts;
    assert m + CellCounts(parts, v, old(types[i]), 0) == m;
    for j := 0 to |parts|
      invariant forall k :: 0 <= k < types.Length && k != i ==> types[k] == old(types[k])
      invariant types[i] == TypeAfter(parts[..j], v, old(types[i]))
      invariant Represents(r, m + CellCounts(parts, v, old(types[i]), j))
    {
      hide TypeAfter, CellCounts;
      OnePart(parts, v, old(types[i]), j, m);
      if Within(parts[j], v) {
        types[i] := parts[j].key;
      }
      r := Increment(r, types[i], m + CellCounts(parts, v, old(types[i]), j));
    }
    assert parts[..|parts|] == parts;
  }

  lemma OneCell(parts: seq<Part>, vs: seq<Option<real>>, before: seq<byte>, i: nat)
    requires |vs| == |before| && i < |vs|
    ensures AllCounts(parts, vs[..i + 1], before[..i + 1])
         == AllCounts(parts, vs[..i], before[..i]) + CellCounts(parts, vs[i], before[i], |parts|)
  {
    assert vs[..i + 1][..i] == vs[..i] && before[..i + 1][..i] == before[..i];
  }

  lemma NothingCounted(parts: seq<Part>)
    ensures Represents([], AllCounts(parts, [], []))
  {
  }

  /** `sample_and_find_types`: every type ends as the parts say, and the counters, one a type, tell
      how often each type was seen after each part of each cell. */
  method SampleAndFindTypes(values: array<real>, types: array<byte>, parts: seq<Part>, min: real, max: real)
    returns (counts: Counts)
    requires values.Length == types.Length
    modifies types
    ensures forall i :: 0 <= i < types.Length ==>
              types[i] == TypeAfter(parts, Scaled(values[i], min, max), old(types[i]))
    ensures Represents(counts, AllCounts(parts, ScaledAll(values[..], min, max), old(types[..])))
  {
    hide Represents, AllCounts, CellCounts, TypeAfter;
    ghost var vs, before := ScaledAll(values[..], min, max), types[..];
    counts := [];
    NothingCounted(parts);
    assert vs[..0] == [] && before[..0] == [];
    for i := 0 to values.Length
      invariant forall k :: 0 <= k < i ==> types[k] == TypeAfter(parts, vs[k], before[k])
      invariant forall k :: i <= k < types.Length ==> types[k] == before[k]
      invariant Represents(counts, AllCounts(parts, vs[..i], before[..i]))
    {
      OneCell(parts, vs, before, i);
      var v := Scaled(values[i], min, max);
      assert v == vs[i];
      counts := TypeCell(types, i, v, parts, counts, AllCounts(parts, vs[..i], before[..i]));
    }
    assert vs[..|vs|] == vs && before[..|before|] == before;
  }

  lemma RestRepresents(c: Counts, m: multiset<byte>)
    requires Represents(c, m) && c != []
    ensures Represents(c[1..], m[c[0].0 := 0])
  {
    var rest := m[c[0].0 := 0];
    forall u | u in rest
      ensures exists i :: 0 <= i < |c[1..]| && c[1..][i].0 == u
    {
      var i :| 0 <= i < |c| && c[i].0 == u;
      assert c[1..][i - 1].0 == u;
    }
  }

  lemma NothingRepresented(m: multiset<byte>)
    requires Represents([], m)
    ensures m == multiset{}
  {
  }

  lemma {:induction false} CountsTotal(c: Counts, m: multiset<byte>)
    requires Represents(c, m)
    ensures Total(c) == |m|
    decreases c
  {
    if c == [] {
      NothingRepresented(m);
    } else {
      var rest := m[c[0].0 := 0];
      RestRepresents(c, m);
      CountsTotal(c[1..], rest);
      assert m[c[0].0] == c[0].1;
      hide Represents;
      assert m == rest + multiset{}[c[0].0 := m[c[0].0]];
    }
  }

  function Total(c: Counts): nat {
    if c == [] then 0 else c[0].1 + Total(c[1..])
  }

  /** The counters add up to cells times parts, however often types repeat. */
  lemma CountsAddUp(c: Counts, parts: seq<Part>, vs: seq<Option<real>>, before: seq<byte>)
    requires |vs| == |before| && Represents(c, AllCounts(parts, vs, before))
    ensures Total(c) == |vs| * |parts|
  {
    hide Represents, AllCounts, Total;
    CountsTotal(c, AllCounts(parts, vs, before));
    AllCountsSize(parts, vs, before);
  }

  // ---------------------------------------------------------------- the retry machine

  datatype Verdict = Accept | Refill | Restart

  /** How often each check may fail before the ranges are drawn afresh. */
  datatype Strikes = Strikes(notEnough: nat, empty: nat, small: nat)

  function EmptyCount(counts: Counts): nat {
    if counts == [] then 0 else if counts[0].0 == EMPTY then counts[0].1 else EmptyCount(counts[1..])
  }

  predicate SomeSmall(counts: Counts, n: nat, parts: nat)
    requires parts > 0
  {
    exists i :: 0 <= i < |counts| && (n / parts) as real * 0.4 > counts[i].1 as real
  }

  /** The three checks on a sample, in order. */
  function Judge(counts: Counts, n: nat, parts: nat, s: Strikes): (Verdict, Strikes)
    requires parts > 0
  {
    if |counts| < parts then
      if s.notEnough + 1 > 2 then (Restart, s.(notEnough := 0)) else (Refill, s.(notEnough := s.notEnough + 1))
    else if n as real * 0.4 < EmptyCount(counts) as real then
      if s.empty + 1 > 4 then (Restart, s.(empty := 0)) else (Refill, s.(empty := s.empty + 1))
    else if SomeSmall(counts, n, parts) then
      if s.small + 1 > 2 then (Restart, s.(small := 0)) else (Refill, s.(small := s.small + 1))
    else (Accept, s)
  }

  /** A type of a counted sample, or none of a kind, has at least four tenths of an even share of the cells,
      and emptiness no more than four tenths of them all; in whole numbers. */
  ghost predicate WellSpread(m: multiset<byte>, n: nat, parts: nat)
    requires parts > 0
  {
    && |Kinds(m)| >= parts && 5 * m[0] <= 2 * n
    && forall t :: t in m ==> 2 * (n / parts) <= 5 * m[t]
  }

  ghost function Kinds(m: multiset<byte>): set<byte> {
    set t | t in m
  }

  lemma {:induction false} KindsCounted(c: Counts, m: multiset<byte>)
    requires Represents(c, m)
    ensures |Kinds(m)| == |c| && EmptyCount(c) == m[0]
    decreases c
  {
    if c == [] {
      NothingRepresented(m);
    } else {
      var t := c[0].0;
      RestRepresents(c, m);
      KindsCounted(c[1..], m[t := 0]);
      assert m[t] == c[0].1 > 0;
      hide Represents;
      assert Kinds(m) == Kinds(m[t := 0]) + {t};
    }
  }

  /** A sample is accepted exactly when it is well spread; the checks look at kinds first, then at
      emptiness, then at rare types, and each third, fifth and third failure of one asks for new ranges. */
  lemma JudgeExactly(c: Counts, m: multiset<byte>, n: nat, parts: nat, s: Strikes)
    requires parts > 0 && Represents(c, m)
    ensures Judge(c, n, parts, s).0 == Accept <==> WellSpread(m, n, parts)
    ensures Judge(c, n, parts, s) ==
            if |Kinds(m)| < parts then
              if s.notEnough < 2 then (Refill, s.(notEnough := s.notEnough + 1)) else (Restart, s.(notEnough := 0))
            else if 5 * m[0] > 2 * n then
              if s.empty < 4 then (Refill, s.(empty := s.empty + 1)) else (Restart, s.(empty := 0))
            else if !WellSpread(m, n, parts) then
              if s.small < 2 then (Refill, s.(small := s.small + 1)) else (Restart, s.(small := 0))
            else (Accept, s)
  {
    hide EmptyCount;
    KindsCounted(c, m);
    assert 5.0 * m[0] as real == (5 * m[0]) as real && 5.0 * (n as real * 0.4) == (2 * n) as real;
    var share := n / parts;
    forall i | 0 <= i < |c|
      ensures share as real * 0.4 > c[i].1 as real <==> 2 * share > 5 * m[c[i].0]
    {
      assert 5.0 * (share as real * 0.4) == (2 * share) as real && 5.0 * c[i].1 as real == (5 * c[i].1) as real;
    }
    if SomeSmall(c, n, parts) {
      var i :| 0 <= i < |c| && (n / parts) as real * 0.4 > c[i].1 as real;
      assert c[i].0 in m;
    }
    if WellSpread(m, n, parts) {
      assert forall i :: 0 <= i < |c| ==> c[i].0 in m;
    }
  }

  // ---------------------------------------------------------------- the tries of one sector

  /** One try: the ranges, the scaled noise, the types and strikes before it, its counters, the verdict and
      the strikes after it. */
  datatype Try = Try(parts: seq<Part>, vs: seq<Option<real>>, before: seq<byte>, strikes: Strikes,
                     counts: Counts, verdict: Verdict, struck: Strikes)

  ghost function TypesOf(t: Try): (r: seq<byte>)
    requires |t.vs| == |t.before|
    ensures |r| == |t.before|
    ensures forall i :: 0 <= i < |r| ==> r[i] == TypeAfter(t.parts, t.vs[i], t.before[i])
  {
    seq(|t.before|, i requires 0 <= i < |t.before| => TypeAfter(t.parts, t.vs[i], t.before[i]))
  }

  ghost predicate Tried(args: seq<byte>, n: nat, t: Try) {
    && PartsFor(t.parts, args) && t.parts != [] && |t.vs| == |t.before| == n
    && Represents(t.counts, AllCounts(t.parts, t.vs, t.before))
    && (t.verdict, t.struck) == Judge(t.counts, n, |t.parts|, t.strikes)
  }

  /** A further try comes after one that was not accepted, starts from the types and strikes it left, and
      has the same ranges unless new ones were asked for. */
  ghost predicate TriedAgain(t: Try, u: Try) {
    && t.verdict != Accept && |t.vs| == |t.before| && u.before == TypesOf(t) && u.strikes == t.struck
    && (t.verdict == Refill ==> u.parts == t.parts)
  }

  ghost predicate Log(args: seq<byte>, n: nat, tries: seq<Try>) {
    && (forall i :: 0 <= i < |tries| ==> Tried(args, n, tries[i]))
    && (forall i :: 0 < i < |tries| ==> TriedAgain(tries[i - 1], tries[i]))
    && (tries != [] ==> tries[0].strikes == Strikes(0, 0, 0) && forall i :: 0 <= i < n ==> tries[0].before[i] == EMPTY)
  }

  datatype Outcome = Filled | GaveUp | OutOfDraws | NoTypes

  /** How the tries ended: with the types of the last one, accepted; after two hundred of which none was;
      or when the generator had no more draws for new ranges. */
  ghost predicate Ended(args: seq<byte>, tries: seq<Try>, outcome: Outcome, types: seq<byte>) {
    && Log(args, |types|, tries) && |tries| <= 200
    && match outcome
       case Filled => tries != [] && tries[|tries| - 1].verdict == Accept && types == TypesOf(tries[|tries| - 1])
       case GaveUp => |tries| == 200 && tries[199].verdict != Accept
       case OutOfDraws => tries == [] || tries[|tries| - 1].verdict == Restart
       case NoTypes => args == []
  }

  lemma {:induction false} StrikesBounded(args: seq<byte>, n: nat, tries: seq<Try>, i: nat)
    requires Log(args, n, tries) && i < |tries|
    ensures tries[i].strikes.notEnough <= 2 && tries[i].strikes.empty <= 4 && tries[i].strikes.small <= 2
  {
    hide Represents, PartsFor, SomeSmall, EmptyCount;
    if i > 0 {
      StrikesBounded(args, n, tries, i - 1);
      assert Tried(args, n, tries[i - 1]) && TriedAgain(tries[i - 1], tries[i]);
    }
  }

  /** However the noise falls, the same ranges are tried at most nine times in a row. */
  lemma {:induction false} NineTries(args: seq<byte>, n: nat, tries: seq<Try>, i: nat, j: nat)
    requires Log(args, n, tries) && i <= j < |tries|
    requires forall k :: i <= k < j ==> tries[k].verdict == Refill
    ensures j - i + 1 <= 9
    ensures var a, b := tries[i].strikes, tries[j].strikes;
            b.notEnough + b.empty + b.small == a.notEnough + a.empty + a.small + (j - i)
    decreases j - i
  {
    hide Represents, PartsFor, SomeSmall, EmptyCount;
    StrikesBounded(args, n, tries, j);
    if i < j {
      assert tries[j - 1].verdict == Refill && Tried(args, n, tries[j - 1]) && TriedAgain(tries[j - 1], tries[j]);
      NineTries(args, n, tries, i, j - 1);
    }
  }

  lemma OneMoreTry(args: seq<byte>, n: nat, tries: seq<Try>, t: Try)
    requires Log(args, n, tries) && Tried(args, n, t)
    requires if tries == [] then t.strikes == Strikes(0, 0, 0) && forall i :: 0 <= i < n ==> t.before[i] == EMPTY
             else TriedAgain(tries[|tries| - 1], t)
    ensures Log(args, n, tries + [t])
  {
    hide Tried, TriedAgain;
  }

  /** Whatever a try left is empty or one of the types. */
  lemma {:induction false} LogFromArgs(args: seq<byte>, n: nat, tries: seq<Try>, i: nat)
    requires Log(args, n, tries) && i < |tries|
    ensures |tries[i].vs| == |tries[i].before|
    ensures forall k :: 0 <= k < n ==> TypesOf(tries[i])[k] == EMPTY || TypesOf(tries[i])[k] in args
  {
    hide Represents, TypeAfter, Judge;
    var t := tries[i];
    assert Tried(args, n, t);
    if i > 0 {
      LogFromArgs(args, n, tries, i - 1);
      assert TriedAgain(tries[i - 1], t);
    }
    TypesFromArgs(t.parts, args, t.vs, t.before, TypesOf(t));
  }

  /** Between two tries: what the log says of the types and strikes the next one starts from. */
  ghost predicate Ready(args: seq<byte>, tries: seq<Try>, types: seq<byte>, strikes: Strikes) {
    && Log(args, |types|, tries)
    && if tries == [] then strikes == Strikes(0, 0, 0) && forall i :: 0 <= i < |types| ==> types[i] == EMPTY
       else
         var last := tries[|tries| - 1];
         last.verdict != Accept && strikes == last.struck && |last.vs| == |last.before| && types == TypesOf(last)
  }

  /** Sampling until a sample is accepted, at most two hundred times. */
  method FindTypes(args: seq<byte>, types: array<byte>, budget: nat)
    returns (outcome: Outcome, ghost tries: seq<Try>)
    requires args != []
    requires forall i :: 0 <= i < types.Length ==> types[i] == EMPTY
    modifies types
    ensures Ended(args, tries, outcome, types[..]) && outcome != NoTypes
    ensures forall i :: 0 <= i < types.Length ==> types[i] == EMPTY || types[i] in args
  {
    hide Log, TypeAfter, Represents, PartsFor, TriedAgain, Judge, Scaled, AllCounts;
    var strikes, left := Strikes(0, 0, 0), budget;
    var attempts := 0;
    tries := [];
    NothingTried(args, types[..]);
    label restart:
    while true
      invariant |tries| == attempts <= MAX_FILL_ATTEMPTS && Ready(args, tries, types[..], strikes)
      invariant tries != [] ==> tries[attempts - 1].verdict == Restart
      invariant forall i :: 0 <= i < types.Length ==> types[i] == EMPTY || types[i] in args
      decreases MAX_FILL_ATTEMPTS - attempts
    {
      var drawn;
      drawn, left := RandomSizedParts(args, left);
      if drawn.None? { return OutOfDraws, tries; }
      var parts := drawn.value;
      ghost var startedAt := attempts;
      while true
        invariant startedAt <= attempts == |tries| <= MAX_FILL_ATTEMPTS && Ready(args, tries, types[..], strikes)
        invariant tries != [] && tries[attempts - 1].verdict == Refill ==> tries[attempts - 1].parts == parts
        invariant forall i :: 0 <= i < types.Length ==> types[i] == EMPTY || types[i] in args
        decreases MAX_FILL_ATTEMPTS - attempts
      {
        attempts := attempts + 1;
        if attempts > MAX_FILL_ATTEMPTS { return GaveUp, tries; }
        var values, min, max := FillNoise(types.Length);
        ghost var before, vs := types[..], ScaledAll(values[..], min, max);
        var counts := SampleAndFindTypes(values, types, parts, min, max);
        TypesFromArgs(parts, args, vs, before, types[..]);
        var (verdict, struck) := Judge(counts, types.Length, |parts|, strikes);
        ghost var t := Try(parts, vs, before, strikes, counts, verdict, struck);
        assert types[..] == TypesOf(t);
        Extend(args, tries, t, strikes);
        tries := tries + [t];
        strikes := struck;
        match verdict
        case Accept => return Filled, tries;
        case Refill =>
        case Restart => continue restart;
      }
    }
  }

  lemma NothingTried(args: seq<byte>, types: seq<byte>)
    requires forall i :: 0 <= i < |types| ==> types[i] == EMPTY
    ensures Ready(args, [], types, Strikes(0, 0, 0))
  {
  }

  lemma Extend(args: seq<byte>, tries: seq<Try>, t: Try, strikes: Strikes)
    requires Ready(args, tries, t.before, strikes) && t.strikes == strikes && Tried(args, |t.before|, t)
    requires tries != [] && tries[|tries| - 1].verdict == Refill ==> tries[|tries| - 1].parts == t.parts
    ensures Log(args, |t.before|, tries + [t])
  {
    hide Log, Tried, PartsFor, Represents, TypeAfter;
    if tries == [] {
      assert tries + [t] == [t];
    }
    OneMoreTry(args, |t.before|, tries, t);
  }

  lemma TypesFromArgs(parts: seq<Part>, args: seq<byte>, vs: seq<Option<real>>, before: seq<byte>, after: seq<byte>)
    requires PartsFor(parts, args) && |vs| == |before| == |after|
    requires forall i :: 0 <= i < |before| ==> before[i] == EMPTY || before[i] in args
    requires forall i :: 0 <= i < |after| ==> after[i] == TypeAfter(parts, vs[i], before[i])
    ensures forall i :: 0 <= i < |after| ==> after[i] == EMPTY || after[i] in args
  {
    forall i | 0 <= i < |after|
      ensures after[i] == EMPTY || after[i] in args
    {
      TypeFromArgs(parts, args, vs[i], before[i]);
    }
  }

  lemma {:induction false} TypeFromArgs(parts: seq<Part>, args: seq<byte>, v: Option<real>, before: byte)
    requires |parts| <= |args| && forall i :: 0 <= i < |parts| ==> parts[i].key == args[i]
    ensures TypeAfter(parts, v, before) == before || TypeAfter(parts, v, before) in args
  {
    if parts != [] {
      assert parts[|parts| - 1].key == args[|parts| - 1];
      TypeFromArgs(parts[..|parts| - 1], args, v, before);
    }
  }

  /** What a fill may do to the map: cells of the sector keep their value or take one of the types,
      with the durability of that type; every other cell is as it was. */
  ghost predicate FillOf(g: Grid, comp: seq<(int, int)>, args: seq<byte>, table: seq<real>,
                         cells0: seq<byte>, durability0: seq<real>, cells: seq<byte>, durability: seq<real>)
    requires |cells0| == |cells| == |durability0| == |durability| == g.Size() && |table| == 256
  {
    forall i :: 0 <= i < g.Size() ==>
      || (cells[i] == cells0[i] && durability[i] == durability0[i])
      || (cells[i] in args && cells[i] != EMPTY && durability[i] == table[cells[i]] && InSector(g, comp, i))
  }

  ghost predicate InSector(g: Grid, comp: seq<(int, int)>, i: int) {
    exists k :: 0 <= k < |comp| && CellIndex(g, comp[k].0, comp[k].1) == i
  }

  /** The `gig` loop of `fill_sector`: one type drawn for all that is left empty. The draw cannot reach
      the last type unless it is the only one. */
  method FillEmpty(types: array<byte>, args: seq<byte>)
    requires args != []
    modifies types
    ensures FilledUp(args, true, old(types[..]), types[..])
  {
    var k := NextRange(0, |args| - 1);
    var filler := args[if k < |args| - 1 then k else |args| - 1];
    assert Filler(args, filler);
    for i := 0 to types.Length
      invariant forall j :: 0 <= j < i ==> types[j] == if old(types[j]) == EMPTY then filler else old(types[j])
      invariant forall j :: i <= j < types.Length ==> types[j] == old(types[j])
    {
      if types[i] == EMPTY {
        types[i] := filler;
      }
    }
    assert UpWith(filler, old(types[..]), types[..]);
  }

  /** The first n cells of a sector hold the types chosen for them, or what they held where none was; the
      others are as they were. */
  ghost predicate Written(g: Grid, comp: seq<(int, int)>, types: seq<byte>, cells0: seq<byte>, cells: seq<byte>, n: nat)
    requires |cells0| == |cells| == g.Size() && n <= |comp| == |types|
  {
    forall k :: 0 <= k < |comp| ==>
      && InPlace(g, comp[k])
      && var i := CellIndex(g, comp[k].0, comp[k].1);
         cells[i] == if k < n && types[k] != EMPTY then types[k] else cells0[i]
  }

  /** With `gig` one of the types, but not the last unless it is the only one, takes all that was left empty. */
  ghost predicate FilledUp(args: seq<byte>, gig: bool, types: seq<byte>, r: seq<byte>) {
    && |r| == |types|
    && (!gig ==> r == types)
    && (gig ==> exists f :: Filler(args, f) && UpWith(f, types, r))
  }

  ghost predicate UpWith(f: byte, types: seq<byte>, r: seq<byte>) {
    |r| == |types| && forall i :: 0 <= i < |r| ==> r[i] == if types[i] == EMPTY then f else types[i]
  }

  ghost predicate Filler(args: seq<byte>, f: byte) {
    exists k :: 0 <= k < |args| && (k < |args| - 1 || |args| == 1) && args[k] == f
  }

  lemma OtherPlace(g: Grid, a: (int, int), b: (int, int))
    requires g.Has(a.0, a.1) && g.Has(b.0, b.1) && a != b
    ensures CellIndex(g, a.0, a.1) != CellIndex(g, b.0, b.1)
  {
    if CellIndex(g, a.0, a.1) == CellIndex(g, b.0, b.1) {
      IndexInjective(g, a.0, a.1, b.0, b.1);
    }
  }

  /** What the cells of a sector hold after a fill: the types of the last try, filled up. */
  ghost predicate Shows(g: Grid, comp: seq<(int, int)>, args: seq<byte>, gig: bool, tries: seq<Try>,
                        cells0: seq<byte>, cells: seq<byte>)
    requires |cells0| == |cells| == g.Size()
  {
    tries != [] && var last := tries[|tries| - 1];
                   && |last.vs| == |last.before| == |comp|
                   && exists r :: FilledUp(args, gig, TypesOf(last), r) && Written(g, comp, r, cells0, cells, |comp|)
  }

  ghost predicate EndedSomehow(args: seq<byte>, tries: seq<Try>, outcome: Outcome, n: nat) {
    exists types :: |types| == n && Ended(args, tries, outcome, types)
  }

  /** `fill_sector`. The cells change only if a try was accepted, and then they show that try. */
  method FillSector(g: Grid, cells: array<byte>, durability: array<real>, table: seq<real>,
                    comp: seq<(int, int)>, args: seq<byte>, gig: bool, budget: nat)
    returns (outcome: Outcome, ghost tries: seq<Try>)
    requires cells.Length == durability.Length == g.Size() && |table| == 256
    requires forall k :: 0 <= k < |comp| ==> g.Has(comp[k].0, comp[k].1)
    requires forall k :: 0 <= k < |args| ==> args[k] != EMPTY
    modifies cells, durability
    ensures EndedSomehow(args, tries, outcome, |comp|) && (outcome == NoTypes <==> args == [])
    ensures FillOf(g, comp, args, table, old(cells[..]), old(durability[..]), cells[..], durability[..])
    ensures outcome != Filled ==> cells[..] == old(cells[..]) && durability[..] == old(durability[..])
    ensures outcome == Filled && NoDup(comp) ==> Shows(g, comp, args, gig, tries, old(cells[..]), cells[..])
  {
    var types := new byte[|comp|](_ => EMPTY);
    if args == [] {
      assert Ended(args, [], NoTypes, types[..]);
      return NoTypes, [];
    }
    outcome, tries := FindTypes(args, types, budget);
    ghost var sample := types[..];
    assert Ended(args, tries, outcome, sample);
    if outcome != Filled { return; }
    hide Log;
    if gig {
      FillEmpty(types, args);
      UpFromArgs(args, sample, types[..]);
    }
    assert FilledUp(args, gig, sample, types[..]);
    WriteTypes(g, cells, durability, table, comp, args, types[..]);
  }

  lemma UpFromArgs(args: seq<byte>, types: seq<byte>, r: seq<byte>)
    requires FilledUp(args, true, types, r) && forall i :: 0 <= i < |types| ==> types[i] == EMPTY || types[i] in args
    ensures forall i :: 0 <= i < |r| ==> r[i] in args
  {
    var f :| Filler(args, f) && UpWith(f, types, r);
  }

  ghost predicate InPlace(g: Grid, c: (int, int)) {
    0 <= CellIndex(g, c.0, c.1) < g.Size()
  }

  lemma WrittenOneMore(g: Grid, comp: seq<(int, int)>, types: seq<byte>, cells0: seq<byte>, before: seq<byte>,
                       cells: seq<byte>, k: nat)
    requires |cells0| == |before| == |cells| == g.Size() && k < |comp| == |types| && NoDup(comp)
    requires forall j :: 0 <= j < |comp| ==> g.Has(comp[j].0, comp[j].1)
    requires Written(g, comp, types, cells0, before, k) && InPlace(g, comp[k])
    requires var i := CellIndex(g, comp[k].0, comp[k].1);
             cells == if types[k] != EMPTY then before[i := types[k]] else before
    ensures Written(g, comp, types, cells0, cells, k + 1)
  {
    forall j | 0 <= j < |comp| && j != k
      ensures CellIndex(g, comp[j].0, comp[j].1) != CellIndex(g, comp[k].0, comp[k].1)
    {
      OtherPlace(g, comp[j], comp[k]);
    }
  }

  method WriteTypes(g: Grid, cells: array<byte>, durability: array<real>, table: seq<real>,
                    comp: seq<(int, int)>, args: seq<byte>, types: seq<byte>)
    requires cells.Length == durability.Length == g.Size() && |table| == 256
    requires forall k :: 0 <= k < |comp| ==> g.Has(comp[k].0, comp[k].1)
    requires |types| == |comp| && forall k :: 0 <= k < |types| ==> types[k] == EMPTY || types[k] in args
    modifies cells, durability
    ensures FillOf(g, comp, args, table, old(cells[..]), old(durability[..]), cells[..], durability[..])
    ensures NoDup(comp) ==> Written(g, comp, types, old(cells[..]), cells[..], |comp|)
  {
    ghost var cells0, durability0 := cells[..], durability[..];
    AllInPlace(g, comp);
    for k := 0 to |comp|
      invariant FillOf(g, comp, args, table, cells0, durability0, cells[..], durability[..])
      invariant NoDup(comp) ==> Written(g, comp, types, cells0, cells[..], k)
    {
      InRange(g, comp[k].0, comp[k].1);
      var i := CellIndex(g, comp[k].0, comp[k].1);
      ghost var before := cells[..];
      if types[k] != EMPTY {
        cells[i] := types[k];
        durability[i] := table[types[k]];
        assert InSector(g, comp, i);
      }
      if NoDup(comp) {
        WrittenOneMore(g, comp, types, cells0, before, cells[..], k);
      }
    }
    assert FillOf(g, comp, args, table, cells0, durability0, cells[..], durability[..]);
  }

  lemma AllInPlace(g: Grid, comp: seq<(int, int)>)
    requires forall k :: 0 <= k < |comp| ==> g.Has(comp[k].0, comp[k].1)
    ensures forall k :: 0 <= k < |comp| ==> InPlace(g, comp[k])
  {
    forall k | 0 <= k < |comp|
      ensures InPlace(g, comp[k])
    {
      InRange(g, comp[k].0, comp[k].1);
    }
  }
}
