/** The cell types a sector of a depth tier may be filled with. */
module SectorPalette {
  import opened LittleEndian

  const YELLOW_SAND: byte := 99
  const ROCK: byte := 103
  const DARK_YELLOW_SAND: byte := 100
  const HEAVY_ROCK: byte := 113
  const LAVA: byte := 91
  const BOULDER1: byte := 92
  const BOULDER2: byte := 93
  const BOULDER3: byte := 94
  const BLUE_SAND: byte := 97
  const DARK_BLUE_SAND: byte := 98
  const WHITE_SAND: byte := 60
  const DARK_WHITE_SAND: byte := 61
  const GOLDEN_ROCK: byte := 120
  const PASSIVE_ACID: byte := 86
  const RUSTY_SAND: byte := 62
  const DARK_RUSTY_SAND: byte := 63
  const DEEP_ROCK: byte := 121
  const BLACK_BOULDER1: byte := 40
  const BLACK_BOULDER2: byte := 41
  const BLACK_BOULDER3: byte := 42
  const GRAY_ACID: byte := 66
  const G_ROCK: byte := 122
  const METAL_BOULDER1: byte := 43
  const METAL_BOULDER2: byte := 44
  const METAL_BOULDER3: byte := 45
  const PEARL: byte := 68
  const GREEN: byte := 107
  const BLUE: byte := 109
  const X_BLUE: byte := 72
  const X_GREEN: byte := 71
  const RED: byte := 108
  const X_RED: byte := 73
  const VIOLET: byte := 110
  const X_VIOLET: byte := 75
  const WHITE: byte := 111
  const X_CYAN: byte := 74
  const CYAN: byte := 112

  /** `types_palette`: rocks, sands and acids. */
  function TypesPalette(tier: nat): seq<byte> {
    if tier == 0 then [YELLOW_SAND, ROCK, DARK_YELLOW_SAND, HEAVY_ROCK, ROCK, LAVA]
    else if tier == 1 then [ROCK, HEAVY_ROCK, YELLOW_SAND, DARK_YELLOW_SAND, LAVA, BOULDER1, BOULDER2, BOULDER3]
    else if tier == 2 || tier == 3 then
      [ROCK, HEAVY_ROCK, BOULDER1, BOULDER2, BOULDER3, BLUE_SAND, DARK_BLUE_SAND, LAVA]
    else if tier == 4 then [ROCK, HEAVY_ROCK, BOULDER1, BOULDER2, BOULDER3, BLUE_SAND, DARK_BLUE_SAND, WHITE_SAND,
                            DARK_WHITE_SAND, LAVA]
    else if tier == 5 then [ROCK, HEAVY_ROCK, GOLDEN_ROCK, BOULDER1, BOULDER2, BOULDER3, BLUE_SAND, DARK_BLUE_SAND,
                            WHITE_SAND, DARK_WHITE_SAND, LAVA]
    else if tier == 6 then [ROCK, HEAVY_ROCK, GOLDEN_ROCK, BOULDER1, BOULDER2, BOULDER3, BLUE_SAND, DARK_BLUE_SAND,
                            WHITE_SAND, DARK_WHITE_SAND, LAVA, PASSIVE_ACID]
    else if tier == 7 then [HEAVY_ROCK, GOLDEN_ROCK, BOULDER1, BOULDER2, BOULDER3, BLUE_SAND, DARK_BLUE_SAND,
                            WHITE_SAND, DARK_WHITE_SAND, LAVA, PASSIVE_ACID]
    else if tier == 8 then [HEAVY_ROCK, GOLDEN_ROCK, BOULDER1, BOULDER2, BOULDER3, WHITE_SAND, DARK_WHITE_SAND,
                            RUSTY_SAND, DARK_RUSTY_SAND, PASSIVE_ACID]
    else if tier == 9 || tier == 10 then
      [DEEP_ROCK, GOLDEN_ROCK, BLACK_BOULDER1, BLACK_BOULDER2, BLACK_BOULDER3, WHITE_SAND, DARK_WHITE_SAND,
       RUSTY_SAND, DARK_RUSTY_SAND, PASSIVE_ACID]
    else if tier == 11 then [DEEP_ROCK, GOLDEN_ROCK, BLACK_BOULDER1, BLACK_BOULDER2, BLACK_BOULDER3, WHITE_SAND,
                             DARK_WHITE_SAND, RUSTY_SAND, DARK_RUSTY_SAND, GRAY_ACID]
    else if tier == 12 || tier == 13 then
      [DEEP_ROCK, G_ROCK, BLACK_BOULDER1, BLACK_BOULDER2, BLACK_BOULDER3, WHITE_SAND, DARK_WHITE_SAND, RUSTY_SAND,
       DARK_RUSTY_SAND, GRAY_ACID]
    else [G_ROCK, METAL_BOULDER1, METAL_BOULDER2, METAL_BOULDER3, WHITE_SAND, DARK_WHITE_SAND, RUSTY_SAND,
          DARK_RUSTY_SAND, GRAY_ACID, PEARL]
  }

  /** `crys_palette`: crystals, for a sector of crystals alone or for a mixed one. */
  function CrystalPalette(tier: nat, gig: bool): seq<byte> {
    if tier == 0 then [GREEN, BLUE]
    else if tier == 1 && gig then [GREEN, BLUE, X_BLUE, X_GREEN]
    else if tier == 1 then [GREEN, BLUE]
    else if tier == 2 && gig then [BLUE, X_BLUE, GREEN, X_GREEN]
    else if tier == 2 then [GREEN, BLUE, X_BLUE]
    else if tier == 3 then [BLUE, X_BLUE, RED, X_RED]
    else if tier == 4 && gig then [BLUE, X_BLUE, RED, X_RED]
    else if tier == 4 then [RED, BLUE]
    else if tier == 5 && gig then [RED, VIOLET, X_RED, X_VIOLET]
    else if tier == 5 then [RED, VIOLET, X_RED]
    else if tier == 6 && gig then [X_VIOLET]
    else if tier == 6 then [X_VIOLET, VIOLET]
    else if tier == 7 && gig then [X_VIOLET]
    else if tier == 7 then [VIOLET, VIOLET, WHITE]
    else if tier == 8 && gig then [X_CYAN, CYAN, WHITE]
    else if tier == 8 then [CYAN, WHITE, X_CYAN]
    else if tier == 9 && gig then [X_BLUE, X_CYAN]
    else if tier == 9 then [CYAN, X_BLUE, X_GREEN, X_CYAN]
    else if tier == 10 then [X_GREEN, X_BLUE, X_VIOLET]
    else if tier == 11 then [X_RED, WHITE]
    else if tier == 12 then [X_GREEN, X_CYAN]
    else if tier == 13 then [X_RED, X_VIOLET, X_CYAN]
    else [X_GREEN, X_BLUE, X_RED, X_VIOLET, X_CYAN]
  }

  /** `depth_tier`. */
  function DepthTier(depth: int): nat {
    if depth < 500 then 0 else if depth < 1000 then 1 else if depth < 2000 then 2 else if depth < 3000 then 3
    else if depth < 4000 then 4 else if depth < 6000 then 5 else if depth < 7000 then 6 else if depth < 8000 then 7
    else if depth < 10000 then 8 else if depth < 11000 then 9 else if depth < 13000 then 10
    else if depth < 15000 then 11 else if depth < 17000 then 12 else if depth < 18000 then 13 else 14
  }

  // ---------------------------------------------------------------- depths and types in numbers

  function Passed(bounds: seq<int>, depth: int): nat {
    if bounds == [] then 0 else Passed(bounds[..|bounds| - 1], depth) + if bounds[|bounds| - 1] <= depth then 1 else 0
  }

  const BOUNDS := [500, 1000, 2000, 3000, 4000, 6000, 7000, 8000, 10000, 11000, 13000, 15000, 17000, 18000]

  lemma {:induction false} PassedExactly(bounds: seq<int>, depth: int, n: nat)
    requires n <= |bounds| && (forall i :: 0 <= i < n ==> bounds[i] <= depth)
    requires forall i :: n <= i < |bounds| ==> depth < bounds[i]
    ensures Passed(bounds, depth) == n
  {
    if bounds != [] {
      PassedExactly(bounds[..|bounds| - 1], depth, if n == |bounds| then n - 1 else n);
    }
  }

  /** The tier of a row is the number of bounds it has reached. */
  lemma TierExactly(depth: int)
    ensures DepthTier(depth)
         == Passed([500, 1000, 2000, 3000, 4000, 6000, 7000, 8000, 10000, 11000, 13000, 15000, 17000, 18000], depth)
  {
    PassedExactly(BOUNDS, depth, DepthTier(depth));
  }

  /** The rocks, sands and acids of a row, by their numbers. */
  predicate RockAt(row: int, t: byte) {
    if row < 500 then t in {91, 99, 100, 103, 113}
    else if row < 1000 then t in {91, 92, 93, 94, 99, 100, 103, 113}
    else if row < 3000 then t in {91, 92, 93, 94, 97, 98, 103, 113}
    else if row < 4000 then t in {60, 61, 91, 92, 93, 94, 97, 98, 103, 113}
    else if row < 6000 then t in {60, 61, 91, 92, 93, 94, 97, 98, 103, 113, 120}
    else if row < 7000 then t in {60, 61, 86, 91, 92, 93, 94, 97, 98, 103, 113, 120}
    else if row < 8000 then t in {60, 61, 86, 91, 92, 93, 94, 97, 98, 113, 120}
    else if row < 10000 then t in {60, 61, 62, 63, 86, 92, 93, 94, 113, 120}
    else if row < 13000 then t in {40, 41, 42, 60, 61, 62, 63, 86, 120, 121}
    else if row < 15000 then t in {40, 41, 42, 60, 61, 62, 63, 66, 120, 121}
    else if row < 18000 then t in {40, 41, 42, 60, 61, 62, 63, 66, 121, 122}
    else t in {43, 44, 45, 60, 61, 62, 63, 66, 68, 122}
  }

  /** The crystals of a row, in a mixed sector. */
  predicate CrystalAt(row: int, t: byte) {
    if row < 1000 then t in {107, 109}
    else if row < 2000 then t in {72, 107, 109}
    else if row < 3000 then t in {72, 73, 108, 109}
    else if row < 4000 then t in {108, 109}
    else if row < 6000 then t in {73, 108, 110}
    else if row < 7000 then t in {75, 110}
    else if row < 8000 then t in {110, 111}
    else if row < 10000 then t in {74, 111, 112}
    else if row < 11000 then t in {71, 72, 74, 112}
    else if row < 13000 then t in {71, 72, 75}
    else if row < 15000 then t in {73, 111}
    else if row < 17000 then t in {71, 74}
    else if row < 18000 then t in {73, 74, 75}
    else t in {71, 72, 73, 74, 75}
  }

  /** The crystals of a row, in a sector of nothing else. */
  function PureCrystals(row: int): seq<byte> {
    if row < 500 then [107, 109]
    else if row < 1000 then [107, 109, 72, 71]
    else if row < 2000 then [109, 72, 107, 71]
    else if row < 4000 then [109, 72, 108, 73]
    else if row < 6000 then [108, 110, 73, 75]
    else if row < 8000 then [75]
    else if row < 10000 then [74, 112, 111]
    else if row < 11000 then [72, 74]
    else if row < 13000 then [71, 72, 75]
    else if row < 15000 then [73, 111]
    else if row < 17000 then [71, 74]
    else if row < 18000 then [73, 75, 74]
    else [71, 72, 73, 75, 74]
  }

  /** The palettes of the tier of a row have exactly these types. */
  lemma PalettesByRow(row: int, t: byte)
    ensures t in TypesPalette(DepthTier(row)) <==> RockAt(row, t)
    ensures t in CrystalPalette(DepthTier(row), false) <==> CrystalAt(row, t)
    ensures CrystalPalette(DepthTier(row), true) == PureCrystals(row)
  {
    RocksByRow(row, t);
    CrystalsByRow(row, t);
    PureCrystalsByRow(row);
  }

  lemma RocksByRow(row: int, t: byte)
    ensures t in TypesPalette(DepthTier(row)) <==> RockAt(row, t)
  {
    hide TypesPalette, RockAt, DepthTier;
    if row < 4000 {
      UpperRocks(row, t);
    } else if row < 8000 {
      MiddleRocks(row, t);
    } else {
      LowerRocks(row, t);
    }
  }

  lemma UpperRocks(row: int, t: byte)
    requires row < 4000
    ensures t in TypesPalette(DepthTier(row)) <==> RockAt(row, t)
  {
  }

  lemma MiddleRocks(row: int, t: byte)
    requires 4000 <= row < 8000
    ensures t in TypesPalette(DepthTier(row)) <==> RockAt(row, t)
  {
  }

  lemma LowerRocks(row: int, t: byte)
    requires 8000 <= row
    ensures t in TypesPalette(DepthTier(row)) <==> RockAt(row, t)
  {
  }

  lemma CrystalsByRow(row: int, t: byte)
    ensures t in CrystalPalette(DepthTier(row), false) <==> CrystalAt(row, t)
  {
  }

  lemma PureCrystalsByRow(row: int)
    ensures CrystalPalette(DepthTier(row), true) == PureCrystals(row)
  {
  }

  /** What a sector of a tier can hold besides emptiness. */
  predicate InPalette(tier: nat, t: byte) {
    t in TypesPalette(tier) || t in CrystalPalette(tier, false) || t in CrystalPalette(tier, true)
  }

  /** `is_crystal`. */
  predicate IsCrystal(t: byte) {
    71 <= t <= 75 || 107 <= t <= 112
  }

  /** A palette has members, all of them crystals or none, and types that the cell table defines. */
  predicate Usable(s: seq<byte>, crystals: bool) {
    s != [] && forall i :: 0 <= i < |s| ==> 0 < s[i] < 126 && IsCrystal(s[i]) == crystals
  }

  lemma PalettesUsable(tier: nat)
    ensures Usable(TypesPalette(tier), false)
    ensures Usable(CrystalPalette(tier, false), true) && Usable(CrystalPalette(tier, true), true)
  {
    TypesUsable(tier);
    CrystalsUsable(tier, false);
    CrystalsUsable(tier, true);
  }

  lemma TypesUsable(tier: nat)
    ensures Usable(TypesPalette(tier), false)
  {
    hide TypesPalette;
    if tier < 6 {
      UpperTypesUsable(tier);
    } else {
      LowerTypesUsable(tier);
    }
  }

  lemma UpperTypesUsable(tier: nat)
    requires tier < 6
    ensures Usable(TypesPalette(tier), false)
  {
  }

  lemma LowerTypesUsable(tier: nat)
    requires tier >= 6
    ensures Usable(TypesPalette(tier), false)
  {
  }

  lemma CrystalsUsable(tier: nat, gig: bool)
    ensures Usable(CrystalPalette(tier, gig), true)
  {
  }

  /** What a sector can hold is defined in the cell table and is not emptiness. */
  lemma InPaletteKnown(tier: nat, t: byte)
    requires InPalette(tier, t)
    ensures 0 < t < 126
  {
    PalettesUsable(tier);
    hide TypesPalette, CrystalPalette;
  }
}
