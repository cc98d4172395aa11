/** Skill slots: the level summary, and the migration of the old format. */
module Skills {
  import opened LittleEndian
  import opened Totals
  import opened Wrappers

  const MIN_I32 := -0x8000_0000
  const MAX_I64 := 0x7FFF_FFFF_FFFF_FFFF
  const MIN_I64 := -0x8000_0000_0000_0000

  datatype SkillEntry = SkillEntry(code: string, level: i32, exp: real)

  datatype SkillState = SkillState(level: i32, exp: real)

  datatype SkillSlots = SkillSlots(skills: map<i32, SkillEntry>, totalSlots: i32)

  // ---------------------------------------------------------------- the level summary

  function Clamp(v: int, lo: int, hi: int): int {
    if v < lo then lo else if v > hi then hi else v
  }

  /** `i64::saturating_add`. */
  function SaturatingAdd(a: int, b: int): int {
    Clamp(a + b, MIN_I64, MAX_I64)
  }

  function Levels(skills: map<i32, SkillEntry>): map<int, int> {
    map k | k in skills :: skills[k].level
  }

  /** There are no more slots than i32 numbers. */
  lemma {:induction false} SlotsBounded(slots: set<i32>, hi: int)
    requires MIN_I32 <= hi && forall k :: k in slots ==> k < hi
    ensures |slots| <= hi - MIN_I32
    decreases slots
  {
    if slots == {} {
    } else {
      var top := Highest(slots);
      SlotsBounded(slots - {top}, top);
    }
  }

  lemma {:induction false} Highest(slots: set<i32>) returns (top: i32)
    requires slots != {}
    ensures top in slots && forall k :: k in slots ==> k <= top
    decreases slots
  {
    var k :| k in slots;
    var rest := slots - {k};
    if rest == {} {
      assert slots == {k};
      top := k;
    } else {
      var other := Highest(rest);
      top := if other < k then k else other;
      assert forall j :: j in slots ==> j == k || j in rest;
    }
  }

  /** One more level keeps the running sum far from the ends of i64. */
  lemma StillSmall(n: nat, sum: int, level: i32)
    requires n < 0x1_0000_0000 && MIN_I32 * n <= sum <= MAX_I32 * n
    ensures SaturatingAdd(sum, level) == sum + level
    ensures MIN_I32 * (n + 1) <= sum + level <= MAX_I32 * (n + 1)
  {
  }

  /** `lvl_summary`. The values of the hash map come in any order. */
  method LvlSummary(slots: SkillSlots) returns (r: i32)
    ensures var sum := Sum(Levels(slots.skills));
            r == if sum < -0x8000_0000 then -0x8000_0000 else if sum > 0x7FFF_FFFF then 0x7FFF_FFFF else sum
  {
    var skills := slots.skills;
    var rest, summary := skills, 0;
    ghost var n := 0;
    SlotsBounded(skills.Keys, MAX_I32 + 1);
    while rest.Keys != {}
      invariant rest.Keys <= skills.Keys && forall k :: k in rest ==> rest[k] == skills[k]
      invariant n + |rest.Keys| == |skills.Keys|
      invariant MIN_I32 * n <= summary <= MAX_I32 * n
      invariant summary + Sum(Levels(rest)) == Sum(Levels(skills))
      decreases |rest.Keys|
    {
      var k :| k in rest.Keys;
      var level := rest[k].level;
      SumWithout(Levels(rest), k);
      assert Levels(rest) - {k} == Levels(rest - {k});
      assert (rest - {k}).Keys == rest.Keys - {k};
      StillSmall(n, summary, level);
      summary := SaturatingAdd(summary, level);
      rest := rest - {k};
      n := n + 1;
    }
    r := if MIN_I32 <= summary <= MAX_I32 then summary else if summary < 0 then MIN_I32 else MAX_I32;
  }

  // ---------------------------------------------------------------- order of codes

  /** Strings in dictionary order, as `str::cmp`. */
  predicate Le(a: string, b: string) {
    a == [] || (b != [] && (a[0] < b[0] || (a[0] == b[0] && Le(a[1..], b[1..]))))
  }

  lemma {:induction false} LeTotal(a: string, b: string)
    ensures Le(a, b) || Le(b, a)
  {
    if a != [] && b != [] && a[0] == b[0] {
      LeTotal(a[1..], b[1..]);
    }
  }

  lemma {:induction false} LeAntisymmetric(a: string, b: string)
    requires Le(a, b) && Le(b, a)
    ensures a == b
  {
    if a != [] && b != [] {
      LeAntisymmetric(a[1..], b[1..]);
      assert a == [a[0]] + a[1..] && b == [b[0]] + b[1..];
    }
  }

  lemma {:induction false} LeTransitive(a: string, b: string, c: string)
    requires Le(a, b) && Le(b, c)
    ensures Le(a, c)
  {
    if a != [] && a[0] == b[0] == c[0] {
      LeTransitive(a[1..], b[1..], c[1..]);
    }
  }

  /** One string is a beginning of the other, or the first characters in which they differ decide. */
  lemma {:induction false} LeExactly(a: string, b: string)
    ensures Le(a, b) <==> a <= b || exists i :: 0 <= i < |a| && i < |b| && a[..i] == b[..i] && a[i] < b[i]
  {
    if a != [] && b != [] && a[0] == b[0] {
      LeExactly(a[1..], b[1..]);
      assert a == [a[0]] + a[1..] && b == [b[0]] + b[1..];
      if i :| 0 <= i < |a| && i < |b| && a[..i] == b[..i] && a[i] < b[i] {
        assert i > 0 && a[1..][..i - 1] == a[..i][1..] == b[..i][1..] == b[1..][..i - 1];
        assert a[1..][i - 1] < b[1..][i - 1];
      }
      if i :| 0 <= i < |a[1..]| && i < |b[1..]| && a[1..][..i] == b[1..][..i] && a[1..][i] < b[1..][i] {
        assert a[..i + 1] == [a[0]] + a[1..][..i] && b[..i + 1] == [b[0]] + b[1..][..i];
        assert a[i + 1] < b[i + 1];
      }
    } else if a != [] && b != [] && a[0] < b[0] {
      assert a[..0] == b[..0];
    }
  }

  // ---------------------------------------------------------------- the migration

  const SLOTS_KEY := "__slots"

  ghost predicate Ordered(es: seq<SkillEntry>) {
    forall i, j :: 0 <= i < j < |es| ==> Le(es[i].code, es[j].code) && es[i].code != es[j].code
  }

  /** The legacy skills as a list: every code but the slot count once, with its level and
      experience. */
  ghost predicate Lists(legacy: map<string, SkillState>, es: seq<SkillEntry>) {
    && (forall i, j :: 0 <= i < j < |es| ==> es[i].code != es[j].code)
    && (forall i :: 0 <= i < |es| ==> Legacy(legacy, es[i]))
    && (forall c :: c in legacy && c != SLOTS_KEY ==> exists i :: 0 <= i < |es| && es[i].code == c)
  }

  ghost predicate Legacy(legacy: map<string, SkillState>, e: SkillEntry) {
    e.code != SLOTS_KEY && e.code in legacy && e.level == legacy[e.code].level && e.exp == legacy[e.code].exp
  }

  ghost predicate Listing(legacy: map<string, SkillState>, es: seq<SkillEntry>) {
    Lists(legacy, es) && Ordered(es)
  }

  /** `sort_by` puts one more entry in its place. */
  method InsertByCode(es: seq<SkillEntry>, e: SkillEntry) returns (r: seq<SkillEntry>)
    requires Ordered(es) && forall i :: 0 <= i < |es| ==> es[i].code != e.code
    ensures Ordered(r) && multiset(r) == multiset(es) + multiset{e}
  {
    var at := 0;
    while at < |es| && Le(es[at].code, e.code)
      invariant 0 <= at <= |es|
      invariant forall i :: 0 <= i < at ==> Le(es[i].code, e.code)
    {
      at := at + 1;
    }
    r := es[..at] + [e] + es[at..];
    InsertedOrdered(es, e, at);
    assert es == es[..at] + es[at..];
  }

  lemma InsertedOrdered(es: seq<SkillEntry>, e: SkillEntry, at: nat)
    requires Ordered(es) && at <= |es| && forall i :: 0 <= i < |es| ==> es[i].code != e.code
    requires forall i :: 0 <= i < at ==> Le(es[i].code, e.code)
    requires at < |es| ==> !Le(es[at].code, e.code)
    ensures Ordered(es[..at] + [e] + es[at..])
  {
    forall j | at <= j < |es|
      ensures Le(e.code, es[j].code)
    {
      LeTotal(e.code, es[at].code);
      if at < j {
        LeTransitive(e.code, es[at].code, es[j].code);
      }
    }
  }

  /** `sort_by`. */
  method SortByCode(es: seq<SkillEntry>) returns (r: seq<SkillEntry>)
    requires forall i, j :: 0 <= i < j < |es| ==> es[i].code != es[j].code
    ensures Ordered(r) && multiset(r) == multiset(es)
  {
    r := [];
    for i := 0 to |es|
      invariant Ordered(r) && multiset(r) == multiset(es[..i])
    {
      forall k | 0 <= k < |r|
        ensures r[k].code != es[i].code
      {
        assert r[k] in multiset(es[..i]);
      }
      r := InsertByCode(r, es[i]);
      assert es[..i + 1] == es[..i] + [es[i]];
    }
    assert es[..|es|] == es;
  }

  lemma SortedLists(legacy: map<string, SkillState>, es: seq<SkillEntry>, sorted: seq<SkillEntry>)
    requires Lists(legacy, es) && Ordered(sorted) && multiset(sorted) == multiset(es)
    ensures Listing(legacy, sorted)
  {
    forall i | 0 <= i < |sorted|
      ensures Legacy(legacy, sorted[i])
    {
      assert sorted[i] in multiset(es);
    }
    forall c | c in legacy && c != SLOTS_KEY
      ensures exists i :: 0 <= i < |sorted| && sorted[i].code == c
    {
      var i :| 0 <= i < |es| && es[i].code == c;
      assert es[i] in multiset(sorted);
    }
  }

  /** The slot numbers given out: `i32::try_from(i).unwrap_or(0)`. */
  function SlotOf(i: nat): i32 {
    if i <= MAX_I32 then i else 0
  }

  /** The entries in their slots, later ones over earlier ones. */
  function Placed(es: seq<SkillEntry>): (m: map<i32, SkillEntry>) {
    if es == [] then map[] else Placed(es[..|es| - 1])[SlotOf(|es| - 1) := es[|es| - 1]]
  }

  function TotalSlots(legacy: map<string, SkillState>): i32 {
    if SLOTS_KEY in legacy && legacy[SLOTS_KEY].level > 20 then legacy[SLOTS_KEY].level else 20
  }

  /** The first loop of `migrate_old_skills`. The rows of the hash map come in any order. */
  method Collect(legacy: map<string, SkillState>) returns (entries: seq<SkillEntry>, total: i32)
    ensures Lists(legacy, entries) && total == TotalSlots(legacy)
  {
    total, entries := 20, [];
    var rest := legacy;
    while rest.Keys != {}
      invariant rest.Keys <= legacy.Keys && forall c :: c in rest ==> rest[c] == legacy[c]
      invariant Lists(Without(legacy, rest.Keys), entries)
      invariant total == if SLOTS_KEY in rest then 20 else TotalSlots(legacy)
      decreases |rest.Keys|
    {
      var code :| code in rest.Keys;
      var st := rest[code];
      ListsMore(Without(legacy, rest.Keys), entries, code, st);
      assert Without(legacy, (rest - {code}).Keys) == Without(legacy, rest.Keys)[code := st];
      rest := rest - {code};
      if code == SLOTS_KEY {
        total := if st.level > 20 then st.level else 20;
      } else {
        entries := entries + [SkillEntry(code, st.level, st.exp)];
      }
    }
    assert Without(legacy, {}) == legacy;
  }

  ghost function Without(legacy: map<string, SkillState>, codes: set<string>): map<string, SkillState> {
    legacy - codes
  }

  lemma ListsMore(legacy: map<string, SkillState>, es: seq<SkillEntry>, code: string, st: SkillState)
    requires Lists(legacy, es) && code !in legacy
    ensures Lists(legacy[code := st], if code == SLOTS_KEY then es else es + [SkillEntry(code, st.level, st.exp)])
  {
    var more := es + [SkillEntry(code, st.level, st.exp)];
    forall c | c in legacy && c != SLOTS_KEY
      ensures exists i :: 0 <= i < |es| && more[i].code == es[i].code == c
    {
      var i :| 0 <= i < |es| && es[i].code == c;
      assert more[i] == es[i];
    }
    assert more[|es|].code == code;
  }

  /** The legacy skills in order of their codes, slot after slot, and the slot count. */
  ghost predicate Migrated(legacy: map<string, SkillState>, r: SkillSlots) {
    exists es :: Listing(legacy, es) && r == SkillSlots(Placed(es), TotalSlots(legacy))
  }

  /** `migrate_old_skills`. */
  method MigrateOldSkills(legacy: map<string, SkillState>) returns (r: SkillSlots)
    ensures Migrated(legacy, r)
  {
    hide Lists, Ordered, Le;
    var collected, total := Collect(legacy);
    var entries := SortByCode(collected);
    SortedLists(legacy, collected, entries);
    var skills: map<i32, SkillEntry> := map[];
    for i := 0 to |entries|
      invariant skills == Placed(entries[..i])
    {
      assert entries[..i + 1][..i] == entries[..i];
      skills := skills[SlotOf(i) := entries[i]];
    }
    assert entries[..|entries|] == entries;
    r := SkillSlots(skills, total);
  }

  /** There are at least twenty slots, and as many as the old format says if it says more. */
  lemma SlotCount(legacy: map<string, SkillState>, r: SkillSlots)
    requires Migrated(legacy, r)
    ensures r.totalSlots >= 20
    ensures "__slots" in legacy && legacy["__slots"].level >= 20 ==> r.totalSlots == legacy["__slots"].level
    ensures r.totalSlots > 20 ==> "__slots" in legacy && r.totalSlots == legacy["__slots"].level
  {
  }

  /** The result of the migration does not depend on the order of the map. */
  lemma MigratedUnique(legacy: map<string, SkillState>, r: SkillSlots, r': SkillSlots)
    requires Migrated(legacy, r) && Migrated(legacy, r')
    ensures r == r'
  {
    var a :| Listing(legacy, a) && r == SkillSlots(Placed(a), TotalSlots(legacy));
    var b :| Listing(legacy, b) && r' == SkillSlots(Placed(b), TotalSlots(legacy));
    ListingUnique(legacy, a, b);
  }

  lemma {:induction false} ListingUnique(legacy: map<string, SkillState>, a: seq<SkillEntry>, b: seq<SkillEntry>)
    requires Listing(legacy, a) && Listing(legacy, b)
    ensures a == b
    decreases |a|
  {
    if a == [] {
      assert b != [] ==> Legacy(legacy, b[0]);
    } else {
      assert Legacy(legacy, a[0]);
      FirstSame(legacy, a, b);
      ListingTail(legacy, a);
      ListingTail(legacy, b);
      hide Lists, Ordered;
      ListingUnique(legacy - {a[0].code}, a[1..], b[1..]);
      assert a == [a[0]] + a[1..] && b == [b[0]] + b[1..];
    }
  }

  lemma FirstSame(legacy: map<string, SkillState>, a: seq<SkillEntry>, b: seq<SkillEntry>)
    requires Listing(legacy, a) && Listing(legacy, b) && a != [] && b != []
    ensures a[0] == b[0]
  {
    hide Le;
    assert Legacy(legacy, a[0]) && Legacy(legacy, b[0]);
    var j :| 0 <= j < |b| && b[j].code == a[0].code;
    var i :| 0 <= i < |a| && a[i].code == b[0].code;
    if 0 < j && 0 < i {
      LeAntisymmetric(a[0].code, b[0].code);
    }
  }

  lemma ListingTail(legacy: map<string, SkillState>, es: seq<SkillEntry>)
    requires Listing(legacy, es) && es != []
    ensures Listing(legacy - {es[0].code}, es[1..])
  {
    hide Le;
    forall c | c in legacy - {es[0].code} && c != SLOTS_KEY
      ensures exists i :: 0 <= i < |es[1..]| && es[1..][i].code == c
    {
      var i :| 0 <= i < |es| && es[i].code == c;
      assert es[1..][i - 1] == es[i];
    }
  }

  // ---------------------------------------------------------------- looking skills up

  /** Up to 2^31 entries the slots are 0, 1, 2 and so on; the next one falls back on slot 0. */
  lemma {:induction false} PlacedSlots(es: seq<SkillEntry>)
    requires |es| <= MAX_I32 + 1
    ensures forall k: i32 :: k in Placed(es) <==> 0 <= k < |es|
    ensures forall k: i32 :: 0 <= k < |es| ==> Placed(es)[k] == es[k]
  {
    if es != [] {
      PlacedSlots(es[..|es| - 1]);
    }
  }

  lemma {:induction false} PlacedFromList(es: seq<SkillEntry>, k: i32)
    requires k in Placed(es)
    ensures exists i :: 0 <= i < |es| && Placed(es)[k] == es[i]
  {
    var n := |es| - 1;
    if k == SlotOf(n) {
      assert Placed(es)[k] == es[n];
    } else {
      PlacedFromList(es[..n], k);
    }
  }

  ghost predicate Has(skills: map<i32, SkillEntry>, code: string) {
    exists k :: k in skills && skills[k].code == code
  }

  /** `find`: some entry with the code, whichever comes first. */
  method Find(slots: SkillSlots, code: string) returns (r: Option<SkillEntry>)
    ensures r.Some? <==> Has(slots.skills, code)
    ensures r.Some? ==> r.value.code == code && exists k :: k in slots.skills && slots.skills[k] == r.value
  {
    var rest := slots.skills;
    while rest.Keys != {}
      invariant rest.Keys <= slots.skills.Keys && forall k :: k in rest ==> rest[k] == slots.skills[k]
      invariant forall k :: k in slots.skills && k !in rest ==> slots.skills[k].code != code
      decreases |rest.Keys|
    {
      var k :| k in rest.Keys;
      if rest[k].code == code {
        return Some(rest[k]);
      }
      assert (rest - {k}).Keys == rest.Keys - {k};
      rest := rest - {k};
    }
    r := None;
  }

  /** The codes of the old format, without the slot count. */
  function Codes(legacy: map<string, SkillState>): set<string> {
    legacy.Keys - {SLOTS_KEY}
  }

  lemma {:induction false} ListingSize(legacy: map<string, SkillState>, es: seq<SkillEntry>)
    requires Listing(legacy, es)
    ensures |es| == |Codes(legacy)|
    decreases |es|
  {
    hide Ordered;
    if es == [] {
      assert Codes(legacy) == {};
    } else {
      assert Legacy(legacy, es[0]);
      ListingTail(legacy, es);
      ListingSize(legacy - {es[0].code}, es[1..]);
      assert Codes(legacy - {es[0].code}) == Codes(legacy) - {es[0].code};
    }
  }

  /** After a migration, what `find` can return for a code is its legacy level and experience. */
  lemma FoundIsLegacy(legacy: map<string, SkillState>, r: SkillSlots, k: i32)
    requires Migrated(legacy, r) && k in r.skills
    ensures var e := r.skills[k];
            e.code in Codes(legacy) && e == SkillEntry(e.code, legacy[e.code].level, legacy[e.code].exp)
  {
    var es :| Listing(legacy, es) && r == SkillSlots(Placed(es), TotalSlots(legacy));
    PlacedFromList(es, k);
  }

  /** Every legacy code is found if and only if there are at most 2^31 of them. */
  lemma AllFoundExactly(legacy: map<string, SkillState>, r: SkillSlots)
    requires Migrated(legacy, r)
    ensures (forall c :: c in Codes(legacy) ==> Has(r.skills, c)) <==> |Codes(legacy)| <= MAX_I32 + 1
  {
    var es :| Listing(legacy, es) && r == SkillSlots(Placed(es), TotalSlots(legacy));
    ListingSize(legacy, es);
    if |es| <= MAX_I32 + 1 {
      forall c | c in Codes(legacy)
        ensures Has(Placed(es), c)
      {
        EachFound(legacy, es, c);
      }
    } else {
      FirstLost(es);
      assert Legacy(legacy, es[0]);
    }
  }

  lemma EachFound(legacy: map<string, SkillState>, es: seq<SkillEntry>, c: string)
    requires Listing(legacy, es) && |es| <= MAX_I32 + 1 && c in Codes(legacy)
    ensures Has(Placed(es), c)
  {
    PlacedSlots(es);
    var i :| 0 <= i < |es| && es[i].code == c;
    var k: i32 := i;
    assert k in Placed(es) && Placed(es)[k] == es[i];
  }

  /** Up to that many, the codes get slots 0, 1, 2 and so on in dictionary order. */
  lemma SlotsInOrder(legacy: map<string, SkillState>, r: SkillSlots)
    requires Migrated(legacy, r) && |Codes(legacy)| <= MAX_I32 + 1
    ensures forall k: i32 :: k in r.skills <==> 0 <= k < |Codes(legacy)|
    ensures forall j: i32, k: i32 :: 0 <= j < k < |Codes(legacy)| ==>
              Le(r.skills[j].code, r.skills[k].code) && r.skills[j].code != r.skills[k].code
  {
    var es :| Listing(legacy, es) && r == SkillSlots(Placed(es), TotalSlots(legacy));
    ListingSize(legacy, es);
    PlacedSlots(es);
  }

  lemma {:induction false} FirstLost(es: seq<SkillEntry>)
    requires Ordered(es) && |es| > MAX_I32 + 1
    ensures !Has(Placed(es), es[0].code)
  {
    forall k | k in Placed(es)
      ensures Placed(es)[k].code != es[0].code
    {
      LaterInSlot(es, k);
    }
  }

  /** With too many entries no slot keeps the first of them. */
  lemma {:induction false} LaterInSlot(es: seq<SkillEntry>, k: i32)
    requires |es| > MAX_I32 + 1 && k in Placed(es)
    ensures exists i :: 0 < i < |es| && Placed(es)[k] == es[i]
  {
    var n := |es| - 1;
    if k == SlotOf(n) {
      assert Placed(es)[k] == es[n];
    } else if n > MAX_I32 + 1 {
      LaterInSlot(es[..n], k);
    } else {
      PlacedSlots(es[..n]);
      assert Placed(es)[k] == es[k];
    }
  }
}
