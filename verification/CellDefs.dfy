/** The table of cell definitions, and the durability table the generator makes of it. */
module CellDefs {
  import opened LittleEndian
  import opened Sequences
  import opened Wrappers

  const CELL_TYPE_COUNT := 126

  /** A definition as the file lists it: its type, its durability, and the rest of the record. */
  datatype CellDef = CellDef(cellType: byte, durability: real, name: string)

  datatype Error = OutOfRange(cellType: byte) | Duplicate(cellType: byte) | Missing(cellType: byte)

  // ---------------------------------------------------------------- loading

  /** The first n definitions have known types, no two the same. */
  ghost predicate Distinct(parsed: seq<CellDef>, n: nat)
    requires n <= |parsed|
  {
    && (forall i :: 0 <= i < n ==> parsed[i].cellType < CELL_TYPE_COUNT)
    && (forall i, j :: 0 <= i < j < n ==> parsed[i].cellType != parsed[j].cellType)
  }

  ghost predicate Lists(parsed: seq<CellDef>, t: byte) {
    exists i :: 0 <= i < |parsed| && parsed[i].cellType == t
  }

  /** Every type from 0 to 125 is listed, once, and nothing else is. */
  ghost predicate Complete(parsed: seq<CellDef>) {
    && Distinct(parsed, |parsed|)
    && forall t: byte :: t < CELL_TYPE_COUNT ==> Lists(parsed, t)
  }

  /** A dense table holds at each index the definition of that type. */
  ghost predicate Dense(parsed: seq<CellDef>, cells: seq<CellDef>) {
    && |cells| == CELL_TYPE_COUNT
    && forall t :: 0 <= t < CELL_TYPE_COUNT ==> cells[t].cellType == t && cells[t] in parsed
  }

  /** Why a file is refused: its first bad line, or else the smallest type it leaves out. */
  ghost predicate Refused(parsed: seq<CellDef>, e: Error) {
    match e
    case OutOfRange(t) =>
      exists i :: 0 <= i < |parsed| && Distinct(parsed, i) && parsed[i].cellType == t >= CELL_TYPE_COUNT
    case Duplicate(t) =>
      exists i, j :: 0 <= j < i < |parsed| && Distinct(parsed, i)
        && parsed[i].cellType == parsed[j].cellType == t < CELL_TYPE_COUNT
    case Missing(t) =>
      && Distinct(parsed, |parsed|) && t < CELL_TYPE_COUNT && !Lists(parsed, t)
      && forall u: byte :: u < t ==> Lists(parsed, u)
  }

  ghost predicate SeenIn(parsed: seq<CellDef>, n: nat, seen: set<byte>)
    requires n <= |parsed|
  {
    && (forall j :: 0 <= j < n ==> parsed[j].cellType in seen)
    && forall t :: t in seen ==> exists j :: 0 <= j < n && parsed[j].cellType == t
  }

  lemma NoneSeen(parsed: seq<CellDef>)
    ensures SeenIn(parsed, 0, {})
  {
  }

  lemma WhereSeen(parsed: seq<CellDef>, n: nat, seen: set<byte>, t: byte) returns (j: nat)
    requires n <= |parsed| && SeenIn(parsed, n, seen) && t in seen
    ensures j < n && parsed[j].cellType == t
  {
    j :| 0 <= j < n && parsed[j].cellType == t;
  }

  lemma SeenMore(parsed: seq<CellDef>, n: nat, seen: set<byte>)
    requires n < |parsed| && Distinct(parsed, n) && SeenIn(parsed, n, seen)
    requires parsed[n].cellType < CELL_TYPE_COUNT && parsed[n].cellType !in seen
    ensures Distinct(parsed, n + 1) && SeenIn(parsed, n + 1, seen + {parsed[n].cellType})
  {
    var more := seen + {parsed[n].cellType};
    forall t | t in more
      ensures exists j :: 0 <= j < n + 1 && parsed[j].cellType == t
    {
      if t in seen {
        var j :| 0 <= j < n && parsed[j].cellType == t;
      } else {
        assert parsed[n].cellType == t;
      }
    }
  }

  /** The first loop of `load`: the types seen, or the first bad line. */
  method CheckTypes(parsed: seq<CellDef>) returns (r: Result<set<byte>, Error>)
    ensures r.Success? <==> Distinct(parsed, |parsed|)
    ensures r.Success? ==> |r.value| == |parsed| && SeenIn(parsed, |parsed|, r.value)
    ensures r.Failure? ==> Refused(parsed, r.error)
  {
    hide SeenIn;
    var seen: set<byte> := {};
    NoneSeen(parsed);
    for i := 0 to |parsed|
      invariant Distinct(parsed, i) && |seen| == i && SeenIn(parsed, i, seen)
    {
      var t := parsed[i].cellType;
      if t >= CELL_TYPE_COUNT { return Failure(OutOfRange(t)); }
      if t in seen {
        ghost var j := WhereSeen(parsed, i, seen, t);
        return Failure(Duplicate(t));
      }
      SeenMore(parsed, i, seen);
      seen := seen + {t};
    }
    r := Success(seen);
  }

  /** The smallest type not seen. */
  method FindMissing(seen: set<byte>) returns (missing: byte)
    requires |seen| != CELL_TYPE_COUNT && forall t :: t in seen ==> t < CELL_TYPE_COUNT
    ensures missing < CELL_TYPE_COUNT && missing !in seen
    ensures forall u: byte :: u < missing ==> u in seen
  {
    NotAllSeen(seen, CELL_TYPE_COUNT);
    missing := 0;
    while missing in seen
      invariant missing < CELL_TYPE_COUNT
      invariant forall u: byte :: u < missing ==> u in seen
      decreases CELL_TYPE_COUNT - missing
    {
      AllSeenBelow(seen, missing);
      missing := missing + 1;
    }
  }

  /** The last loop of `load`: every definition to the slot of its type. */
  method Place(parsed: seq<CellDef>) returns (cells: seq<CellDef>)
    requires Complete(parsed)
    ensures Dense(parsed, cells)
  {
    var slots: seq<Option<CellDef>> := seq(CELL_TYPE_COUNT, _ => None);
    for i := 0 to |parsed|
      invariant |slots| == CELL_TYPE_COUNT
      invariant forall t :: 0 <= t < |slots| && slots[t].Some? ==>
                  slots[t].value.cellType == t && slots[t].value in parsed
      invariant forall j :: 0 <= j < i ==> slots[parsed[j].cellType].Some?
    {
      slots := slots[parsed[i].cellType := Some(parsed[i])];
    }
    forall t | 0 <= t < CELL_TYPE_COUNT
      ensures slots[t].Some?
    {
      assert Lists(parsed, t);
    }
    cells := seq(CELL_TYPE_COUNT, t requires 0 <= t < CELL_TYPE_COUNT => slots[t].value);
  }

  /** `CellDefs::load` after parsing: it accepts exactly the complete lists. */
  method Load(parsed: seq<CellDef>) returns (r: Result<seq<CellDef>, Error>)
    ensures r.Success? <==> Complete(parsed)
    ensures r.Success? ==> Dense(parsed, r.value)
    ensures r.Failure? ==> Refused(parsed, r.error)
  {
    var seen := CheckTypes(parsed);
    if seen.Failure? { return Failure(seen.error); }
    forall t: byte
      ensures t in seen.value <==> Lists(parsed, t)
    {
    }
    if |seen.value| != CELL_TYPE_COUNT {
      var missing := FindMissing(seen.value);
      return Failure(Missing(missing));
    }
    AllSeen(seen.value, CELL_TYPE_COUNT);
    var cells := Place(parsed);
    r := Success(cells);
  }

  /** The types, as a set of numbers. */
  function Types(n: nat): (S: set<byte>)
    requires n <= 256
    ensures |S| == n
    ensures forall t: byte :: t in S <==> t < n
  {
    if n == 0 then {} else Types(n - 1) + {n - 1}
  }

  lemma SubsetSize<T>(a: set<T>, b: set<T>)
    requires a <= b
    ensures |a| <= |b| && (|a| == |b| ==> a == b)
  {
    assert a + (b - a) == b;
  }

  lemma AllSeen(seen: set<byte>, n: nat)
    requires n <= 256 && |seen| == n && forall t :: t in seen ==> t < n
    ensures forall t: byte :: t < n ==> t in seen
  {
    SubsetSize(seen, Types(n));
  }

  lemma NotAllSeen(seen: set<byte>, n: nat)
    requires n <= 256 && |seen| != n && forall t :: t in seen ==> t < n
    ensures exists t: byte :: t < n && t !in seen
  {
    var all := Types(n);
    assert seen + (all - seen) == all;
    assert |all - seen| != 0;
    var t :| t in all - seen;
  }

  lemma AllSeenBelow(seen: set<byte>, t: byte)
    requires exists u: byte :: u < CELL_TYPE_COUNT && u !in seen
    requires t in seen && forall u: byte :: u < t ==> u in seen
    ensures t < CELL_TYPE_COUNT - 1
  {
  }

  ghost function TypesListed(parsed: seq<CellDef>): (s: seq<byte>)
    ensures |s| == |parsed| && forall i :: 0 <= i < |s| ==> s[i] == parsed[i].cellType
  {
    seq(|parsed|, i requires 0 <= i < |parsed| => parsed[i].cellType)
  }

  /** A list is complete exactly when it has 126 lines and every type from 0 to 125 has one. */
  lemma CompleteExactly(parsed: seq<CellDef>)
    ensures Complete(parsed) <==> |parsed| == 126 && forall t: byte :: t < 126 ==> Lists(parsed, t)
  {
    if Complete(parsed) {
      AsManyLines(parsed, 126);
    } else if |parsed| == 126 && forall t: byte :: t < 126 ==> Lists(parsed, t) {
      AllDifferent(parsed);
    }
  }

  lemma AsManyLines(parsed: seq<CellDef>, n: nat)
    requires n <= 256 && (forall i :: 0 <= i < |parsed| ==> parsed[i].cellType < n)
    requires forall i, j :: 0 <= i < j < |parsed| ==> parsed[i].cellType != parsed[j].cellType
    requires forall t: byte :: t < n ==> Lists(parsed, t)
    ensures |parsed| == n
  {
    hide Types, Lists;
    var types := TypesListed(parsed);
    forall t | t in types
      ensures t in Types(n)
    {
    }
    NoDupFits(types, Types(n));
    EachListed(parsed, n);
    SetFits(Types(n), types);
  }

  lemma EachListed(parsed: seq<CellDef>, n: nat)
    requires n <= 256 && forall t: byte :: t < n ==> Lists(parsed, t)
    ensures forall t :: t in Types(n) ==> t in TypesListed(parsed)
  {
    hide Types;
    var types := TypesListed(parsed);
    forall t | t in Types(n)
      ensures t in types
    {
      assert Lists(parsed, t);
      var i :| 0 <= i < |parsed| && parsed[i].cellType == t;
      assert types[i] == t;
    }
  }

  /** With a line for each type no line is to spare. */
  lemma NoneToSpare(parsed: seq<CellDef>, n: nat, j: nat)
    requires n <= 256 && |parsed| == n && j < n && forall t: byte :: t < n ==> Lists(parsed, t)
    ensures parsed[j].cellType < n && forall i :: 0 <= i < n && i != j ==> parsed[i].cellType != parsed[j].cellType
  {
    hide Types, Lists;
    EachListed(parsed, n);
    var types := TypesListed(parsed);
    var others := types[..j] + types[j + 1..];
    assert types == types[..j] + [types[j]] + types[j + 1..];
    if types[j] !in Types(n) || types[j] in others {
      SetFits(Types(n), others);
    }
    forall i | 0 <= i < n && i != j
      ensures types[i] in others
    {
      assert types[i] == others[if i < j then i else i - 1];
    }
  }

  lemma AllDifferent(parsed: seq<CellDef>)
    requires |parsed| == 126 && forall t: byte :: t < 126 ==> Lists(parsed, t)
    ensures Distinct(parsed, 126)
  {
    forall j | 0 <= j < 126
      ensures parsed[j].cellType < 126
      ensures forall i :: 0 <= i < 126 && i != j ==> parsed[i].cellType != parsed[j].cellType
    {
      NoneToSpare(parsed, 126, j);
    }
  }

  /** Order in the file does not matter: a dense table is determined by what the file lists. */
  lemma DenseUnique(parsed: seq<CellDef>, parsed': seq<CellDef>, a: seq<CellDef>, b: seq<CellDef>)
    requires Complete(parsed) && multiset(parsed) == multiset(parsed')
    requires Dense(parsed, a) && Dense(parsed', b)
    ensures a == b
  {
    forall t | 0 <= t < CELL_TYPE_COUNT
      ensures a[t] == b[t]
    {
      assert b[t] in multiset(parsed');
      var i :| 0 <= i < |parsed| && parsed[i] == a[t];
      var j :| 0 <= j < |parsed| && parsed[j] == b[t];
      assert parsed[i].cellType == parsed[j].cellType;
    }
  }

  // ---------------------------------------------------------------- durability

  /** The generator's table: 256 entries, zero where there is no definition. */
  method DurabilityTable(cells: seq<CellDef>) returns (table: seq<real>)
    ensures |table| == 256
    ensures forall t :: 0 <= t < 256 ==> table[t] == if t < |cells| then cells[t].durability else 0.0
  {
    table := seq(256, _ => 0.0);
    for i := 0 to |cells|
      invariant |table| == 256
      invariant forall t :: 0 <= t < 256 ==> table[t] == if t < i then cells[t].durability else 0.0
    {
      if i < |table| {
        table := table[i := cells[i].durability];
      }
    }
  }
}
