# OpenMines, verified models

Dafny models of the parts of the OpenMines server where a mistake would be hard to see, and proofs about
them. To verify:

    dafny verify dfyconfig.toml --resource-limit 2000000

Each component follows the form of its source: stores, tables, receivers and generators are classes and
methods over arrays with loops and invariants, each proved against a function of the old state; the
markup compiler and the codecs are functions. What the components promise is then proved about those
functions, for every input, every run and every reachable state.

| component | files | main results |
|---|---|---|
| map file | `Disk`, `MapModel`, `MapFlush`, `MapCodec`, `MapFormat`, `MapSharing`, `MapStore`, `LittleEndian` | `DurableWrites`, `OpenExactly`, `DecodeErrors`, `RunCovered`, `SaveRecovers`, `CellsSoundExactly`, `AuditAgreesExactly` |
| markup compiler | `Gui`, `GuiMarkup`, `GuiCompiler`, `GuiLiterals`, `GuiNames`, `GuiOrder`, `GuiOrderExact`, `GuiCorrectness`, `GuiAccepted`, `GuiDraws` | `AcceptedExactly`, `ExpansionFollows`, `ExpansionPreservesMeaning`, `OrderExactly`, the draws of `GuiDraws` |
| window documents | `Minimap`, `GuiEncoding` | `SquareDrawnExactly`, `SameObjectExactly`, `ListsExactly` |
| box placement | `Ways`, `BoxPlacement` | `PickBoxCoord`, `NoEarlierWay`, `WithinSevenSteps`, `EightStepsMissed` |
| world generation | `Skeleton`, `GridIndex`, `RowMajor`, `SectorPalette`, `SectorFill`, `FloodFill`, `CellDefs`, `WorldGeneration`, `Randomness` | `CleanPass`, `GenerateSkeleton`, `NineTries`, `PalettesByRow`, `FillSectors`, `Generate` |
| auction and refunds | `Orders`, `Ledger`, `Auction`, `AuctionPlayers`, `AuctionMoney`, `AuctionSolvency`, `AuctionPrices`, `AuctionBids`, `Refunds`, `Totals` | `RunGoods`, `RunMoney`, `RunConserves`, `NothingLostExactly`, `FinalizedOnce`, `RunSolvent`, `SolventExactly`, `PricesExactly`, `OneWinner`, `LoserIsWhole`, `StoppedPaysTwice` |
| clans, buildings, skills | `Clans`, `Persistence`, `Skills` | `NextPlayer`, `RunConsistent`, `LedExactly`, `ReplayIsOnce`, `AllFoundExactly` |
| framing | `Framing` | `FragmentationIrrelevant`, `RoundTrip`, `ParsersAgreeExactly` |
| noise | `Noise`, `NoiseLaws`, `Fractal` | `NoiseExactly`, `RidgedExactly`, `NoiseBounded`, `NoiseSharp`, `RidgedGet`, `ClampIdleExactly`, `BrownianNeedsClamp` |

Where a method is proved against a function, the laws named `...Exactly`, `...Draws` and `...ByRow` say what that
function does without naming it: in the bytes of a file, the goods and money of one player, the rows of the
world, the elements and attributes of the markup.

## How the world outside is modelled

- Random draws and the noise of a sector are arbitrary values of their range (`Randomness`). The noise of the
  skeleton's four layers is an input, and so are the hashes, angles and weights of a fractal.
- A device accepts any number of the bytes written to it (`MapStore.dfy`, class `File`).
- Database tables are maps; a transaction computes on copies and commits, or leaves them alone. Rows of a
  hash map or of a query come in any order.
- A player's row stands for his data wherever they are, in the running world or in the database; which
  players are online is a set beside it. Player numbers are positive, as the database hands them out.
  Bidders, the finaliser and players who come and go take their steps in any order.
- Money, goods and durabilities are unbounded integers and reals; `f32` and `f64` are reals. Widths that
  decide an outcome are written out: `i32` slots and header fields, the wrapping slot count of the map
  reader, the `i64` fold of the level summary, `i32::try_from` in the skill migration.
- The markup compiler starts from the parsed node tree. Attribute expressions are pure; what operations
  return is a parameter (`Host`).

## Where a promise fails

Each failure has an input; the members named say exactly when it happens.

- Reading a map file does not check that its table is one-to-one, so an accepted file can give a store
  whose blocks share bytes (`SharingFile`). Cells are independent exactly when no two blocks name one slot
  (`CellsSoundExactly`).
- The audit reader indexes past its table for coordinates beyond the last whole block (`AuditCrashes`);
  it agrees with the server's reader exactly when both dimensions are multiples of 32.
- `gui!` is not hygienic in one name: an attribute inside a `<for>` that uses `__openmines_gui` sees the
  macro's own variable (`CaptureChangesMeaning`). Outside loops the name is free.
- `gui!` does not evaluate in the order of the markup: the condition of an `<if>` and the list of a `<for>`
  jump ahead of the elements above them (`ConditionComesFirst`, `ListComesFirst`). The order is stated exactly
  (`ExpansionFollows`), and as long as no evaluation is made twice it is that of the markup only if nothing
  jumps ahead, at whatever depth (`OrderExactly`, `ExpansionKeepsOrder`).
- A bid that loses the race is paid back only to a bidder who is online. One who has left loses the amount
  (`LoserLeaves`); over a run no money is lost or minted exactly when no loser is absent, no rollback comes
  too late and no order is deleted at another price than it was listed with (`NothingLostExactly`).
- The money check of a bid and its debit are two steps, so bids checked together can overdraw
  (`TwoBidsOverdraw`, `SolventExactly`).
- Orders may ask for less than nothing. Whoever bids on such an order is paid, and whoever sells it, or is
  outbid on it, pays: `NegativePriceOverdraws` is a run without an unaffordable bid that leaves the seller
  with -100. A step keeps everybody able to pay exactly unless it is such a payment beyond what is free, or a
  bid that is not covered (`NextAffordable`). As long as anybody has goods to offer, no run at fair prices
  overdraws if and only if everybody can pay now and nothing under way pays less than nothing
  (`PricesExactly`), and with offers below zero nobody is ever safe (`NobodyIsSafe`).
- After a failed refund of the outbid player the old price is put back, and a second bid from the same
  snapshot can win (`SecondWinner`). At the price zero no refund has to fail (`ZeroPriceTwice`). The first bid
  on an order is always the only winner of its snapshot, and above zero so is any bid that is not rolled back
  (`OneWinner`).
- The refund loop of a world regeneration fails on an order of initiator 0 whenever no player row 0
  exists (`HouseOrderBlocksRefund`). When it stops it has paid for the orders before, nothing marks that,
  and the next try pays them again (`StoppedPaysTwice`).
- The frame parsers have different limits. They split a stream differently exactly when its first length
  that the server's parser rejects is one the audit client accepts, with the frame complete
  (`ParsersAgreeExactly`, `ShortestDifference`).
- The search for a place for a box gives up after a hundred cells: on an open plane a free cell within seven
  steps is always found, one eight steps away not always (`EightStepsMissed`), one nine steps away never.
- A sum of octaves of gradient-value noise can leave [-1, 1], with every interpolation and any number of
  octaves, but for a single interpolated octave at frequency zero (`BrownianNeedsClamp`). Ridged noise cannot;
  its clamp does nothing.
- The width and height given to a component before it is filled are not its extents: the width depends on
  nothing but its first cell (`ExtentExactly`).
- A deletion that is replayed answers with a mismatch when a second building stood on the same place
  (`ReplayOutcome`); the state is the same nevertheless.
- More than 2^31 legacy skills would lose some (`AllFoundExactly`).
- Requests and invites may name a clan that does not exist; the tables then refer to it
  (`ConsistentExactly`).
- A leader who leaves, is given another rank or founds another clan leaves a clan without a leader
  (`LedExactly`).

## Model

| member | source | states |
|---|---|---|
| `MapModel.CoordinatesInjective` | crates/game/openmines-world/src/map_format.rs:198-209 | two coordinates of the grid that share a block and an index inside it are the same coordinate |
| `MapModel.SlotAvailable` | crates/game/openmines-world/src/map_format.rs:254-261 | while a block has no slot there are fewer slots than table entries, so the conversion of the next slot number to `i32` cannot panic |
| `MapModel.SetCellValid` | crates/game/openmines-world/src/map_format.rs:246-266 | every write keeps the table and the inverse table mutually inverse on a dense range of slots and the dirty list free of repetition |
| `MapModel.SetThenGet` | crates/game/openmines-world/src/map_format.rs:230-266 | the store is a total map from coordinates to bytes: a write changes the cell it names and no other, outside the grid it changes nothing and reads give 0 |
| `MapStorage.MapStore.constructor` | crates/game/openmines-world/src/map_format.rs:148-174 | a new store is the empty map with header and table to be written |
| `MapStorage.MapStore.Locate` | crates/game/openmines-world/src/map_format.rs:198-209 | answers exactly inside the whole blocks, with the row-major block number and cell number |
| `MapStorage.MapStore.GetCell` | crates/game/openmines-world/src/map_format.rs:230-236 | the loop-free read agrees with the total map |
| `MapStorage.MapStore.MarkSlotDirty` | crates/game/openmines-world/src/map_format.rs:220-225 | a slot is listed at most once and flags and list stay the same set |
| `MapStorage.MapStore.SetCell` | crates/game/openmines-world/src/map_format.rs:246-266 | the update in place of five fields is the write of the model |
| `MapStorage.MapStore.TakeFlushBatch` | crates/game/openmines-world/src/map_format.rs:379-409 | the batch images exactly what is dirty, and every mark is cleared; nothing is taken from a clean store |
| `MapStorage.MapStore.RestoreFlushBatch` | crates/game/openmines-world/src/map_format.rs:411-419 | marks come back, each slot once, and no data of the failed batch overwrites newer cells |
| `MapStorage.WriteTo` | crates/game/openmines-world/src/map_format.rs:105-131 | the file gets exactly the byte prefix of the batch's writes that the device accepts, wherever it stops |
| `MapFlush.NextCovered` | crates/game/openmines-world/src/map_format.rs:246-436 | the invariant: wherever file and serialisation differ, a mark or the batch in flight says so; kept by a cell write, a take, a write of any number of bytes, an acknowledgement and a failure |
| `MapFlush.RunCovered` | crates/game/openmines-world/src/map_format.rs:379-436 | the invariant over every interleaving of those events |
| `MapFlush.CleanMeansSaved` | crates/game/openmines-world/src/map_format.rs:379-436 | nothing in flight and nothing dirty: the serialisation is a prefix of the file (a prefix only: an older, longer file keeps its tail because the file is opened without truncation) |
| `MapFlush.RunThenClean` | crates/game/openmines-world/src/map_format.rs:379-436 | a run that ends clean leaves the file starting with the serialisation |
| `MapFlush.FreshCovered` | crates/game/openmines-world/src/map_format.rs:148-174 | a new store over any old file starts a run |
| `MapFlush.SaveCleans` | crates/game/openmines-world/src/map_format.rs:421-431 | one full save of an idle map leaves it clean, its cells as they were and the file right |
| `MapFlush.SaveRecovers` | crates/game/openmines-world/src/map_format.rs:411-431 | from any reachable state, with a batch half written or not, one failure report and one full save do the same |
| `MapStorage.MapStore.Save` | crates/game/openmines-world/src/map_format.rs:421-431 | success: clean and the file starts with the serialisation; failure: cells untouched, still dirty, and file and marks as safe to retry as before |
| `MapCodec.DecodeSerialized` | crates/game/openmines-world/src/map_format.rs:278-360 | reading what was written gives the map back, clean, whatever bytes follow |
| `MapCodec.SerializeDecoded` | crates/game/openmines-world/src/map_format.rs:278-360 | whatever file is accepted, writing the map read from it gives its first bytes back |
| `MapCodec.Accepted` | crates/game/openmines-world/src/map_format.rs:296-360 | the reader accepts exactly the files of sufficient length with positive whole-block dimensions whose table entries have owners |
| `MapCodec.DecodedValid` | crates/game/openmines-world/src/map_format.rs:296-360 | false in general: the reader lets blocks share a slot and slots go unnamed; the map read has mutually inverse tables exactly when every slot has one block |
| `MapSharing.DecodedWritable` | crates/game/openmines-world/src/map_format.rs:230-360 | every accepted file, one-to-one or not, gives a map that can be read and written cell by cell |
| `MapSharing.CellsSoundExactly` | crates/game/openmines-world/src/map_format.rs:230-266 | each write to a map changes the cell it names and no other if and only if no two blocks name one slot; slots that no block names do no harm |
| `MapSharing.WritesReadBack` | crates/game/openmines-world/src/map_format.rs:230-360 | when no two blocks do, every cell reads, after any number of writes, as it was last written |
| `MapSharing.SharingFile` | crates/game/openmines-world/src/map_format.rs:296-360 | a file that is accepted although two blocks name slot 0: writing cell (0, 0) changes cell (32, 0) |
| `MapStorage.LocateExactly` | crates/game/openmines-world/src/map_format.rs:198-209 | a cell is kept exactly inside the whole blocks, in block `x/32 + y/32 * (width/32)` at place `x%32 + 32*(y%32)` |
| `MapFormat.StartsWithCells` | crates/game/openmines-world/src/map_format.rs:105-131 | the file format by its bytes: header, table and blocks of a map say of every coordinate what the map says |
| `MapFormat.SerializedCells` | crates/game/openmines-world/src/map_format.rs:278-294 | the size of a serialised map, its two dimensions, and every one of its cells, found in the bytes |
| `MapFormat.FirstError` | crates/game/openmines-world/src/map_format.rs:332-342 | the error reported is that of the first table entry without a slot, whatever other errors follow |
| `MapFormat.DecodeErrors` | crates/game/openmines-world/src/map_format.rs:296-360 | for every file, which of the errors it is refused with: each if and only if its own defect is there and none that is looked for before it |
| `MapStorage.MapStore.Deserialize` | crates/game/openmines-world/src/map_format.rs:296-360 | the loops over table and blocks have the outcome of the specification, error for error and field for field |
| `MapStorage.ReadTable` | crates/game/openmines-world/src/map_format.rs:313-321 | the loop over the index table returns its entries and the number of slots they announce |
| `MapStorage.ScanOwners` | crates/game/openmines-world/src/map_format.rs:332-342 | the inverse index, or the first entry that names no slot |
| `MapCodec.OpenCovered` | crates/game/openmines-world/src/map_format.rs:364-376 | every consistent store `open` hands out, also the fresh one made when the dimensions differ, starts a run |
| `MapFormat.OpenExactly` | crates/game/openmines-world/src/map_format.rs:364-376 | for any file and dimensions: whether `open` succeeds, that the map then has exactly the dimensions asked for, that it reads as the file says if its header has both of them, and that it reads 0 everywhere, with header and table to be written, if there is no file, too short a one, or one of another width or height |
| `MapFormat.OpenOwnFile` | crates/game/openmines-world/src/map_format.rs:364-376 | the file of a map, whatever follows it, gives that map back under its own two dimensions and under no others |
| `MapFormat.NextCells` | crates/game/openmines-world/src/map_format.rs:230-436 | whatever the event, the live map changes at the cell that is written, if it is in the grid, and nowhere else |
| `MapFormat.NextNumber` | crates/game/openmines-world/src/map_format.rs:379-409 | a batch that is taken has the number of the store, which then goes up by one; no other event counts |
| `MapFormat.RunCells` | crates/game/openmines-world/src/map_format.rs:230-436 | after any run every cell reads as it was last written, or as before the run |
| `MapFormat.DurableWrites` | crates/game/openmines-world/src/map_format.rs:364-436 | from file to file: open any file, let anything happen, and when nothing is in flight or dirty the bytes of the new file, and a store opened on it, say of each cell what was last written to it, or else what the old file said, or 0 if it had other dimensions |
| `MapFormat.HeadFirst` | crates/game/openmines-world/src/map_format.rs:105-131 | header and table are written before any block: until they are all there, no byte of the blocks has changed, and then they have the numbers of the batch, wherever the write stops |
| `MapCodec.ReopenAfterRun` | crates/game/openmines-world/src/map_format.rs:364-436 | durability over whole runs: opening the file that a clean run leaves gives back every cell of the live map |
| `MapCodec.AuditReadsCell` | tools/audit/mapdump.py:31-55 | the Python reader returns the cell at every coordinate of the whole blocks |
| `MapCodec.AuditCrashes` | tools/audit/mapdump.py:47-55 | its block number runs off the table beyond the last whole block |
| `MapCodec.AuditAgreesExactly` | tools/audit/mapdump.py:31-55 | both readers agree on every coordinate exactly when both dimensions are multiples of 32 |
| `LittleEndian.FromTo` | crates/game/openmines-world/src/map_format.rs:112-123 | little-endian bytes of an `i32` read back |
| `LittleEndian.EntryIsNumber` | crates/game/openmines-world/src/map_format.rs:296-321 | what is read from four bytes is their signed number, lowest byte first |
| `LittleEndian.TableOfEntries` | crates/game/openmines-world/src/map_format.rs:313-321 | a table read entry by entry and written again is the bytes it came from |
| `GuiCompiler.ValidateAttributesExact` | crates/common/openmines-macros/src/lib.rs:33-66 | an attribute list passes exactly when its attributes are keyed, allowed and named once each |
| `GuiAccepted.FoundExactly` | crates/common/openmines-macros/src/lib.rs:68-77 | an attribute is found exactly when the list has it with that value and no earlier one of its name has a value |
| `GuiAccepted.NotFound` | crates/common/openmines-macros/src/lib.rs:68-77 | and is not found exactly when no attribute of its name has a value |
| `GuiAccepted.RequiredExactly` | crates/common/openmines-macros/src/lib.rs:99-106 | in a list that passed, a required attribute has an expression exactly when the list pairs its name with it |
| `GuiAccepted.OptionalExactly` | crates/common/openmines-macros/src/lib.rs:68-106 | an optional one has the expression of its name, or its default when there is none |
| `GuiAccepted.FieldsExactly` | crates/common/openmines-macros/src/lib.rs:33-106 | the condition that follows, on lists of attributes: keyed, allowed and unique, with all the required ones there |
| `GuiAccepted.BareExactly` | crates/common/openmines-macros/src/lib.rs:137-147 | a leaf passes exactly when it has no children but blank text |
| `GuiAccepted.OptionsExactly` | crates/common/openmines-macros/src/lib.rs:393-458 | a dropdown's children pass exactly when they are well-formed options and blank text |
| `GuiAccepted.AcceptedExactly` | crates/common/openmines-macros/src/lib.rs:33-612 | the grammar: `gui!` expands a tree if and only if every element, at every depth, stands where it may, with the attributes it must and may have and the children its kind takes |
| `GuiCompiler.ExpandWindowChildren` | crates/common/openmines-macros/src/lib.rs:192-211 | the loop that reassigns the builder, with the calls back into it, is the recursive expansion |
| `GuiCompiler.ExpandForElement` | crates/common/openmines-macros/src/lib.rs:213-230 | a `for` becomes one fold whose closure names the builder and the item |
| `GuiCompiler.ExpandIfElement` | crates/common/openmines-macros/src/lib.rs:232-241 | an `if` duplicates the builder text into its two branches |
| `GuiCompiler.ExpandDropdownOptions` | crates/common/openmines-macros/src/lib.rs:393-457 | the loop with its two vectors and its flag yields one printed string or one `format!` |
| `GuiCorrectness.PrintedOptions` | crates/common/openmines-macros/src/lib.rs:393-457 | options printed while compiling are the string `format!` would give, and evaluate nothing |
| `GuiLiterals.LiteralPrints` | crates/common/openmines-macros/src/lib.rs:108-135 | what `literal_attr` makes of each kind of literal: it prints the text that `Display` would, or leaves the literal to `format!` |
| `GuiLiterals.NumbersPrinted` | crates/common/openmines-macros/src/lib.rs:118-129 | a number is printed exactly when it is not negative and has no suffix |
| `GuiCorrectness.OptionsMean` | crates/common/openmines-macros/src/lib.rs:393-457 | whichever way the macro chose, the dropdown gets the same options and evaluations |
| `GuiCorrectness.PartsMean` | crates/common/openmines-macros/src/lib.rs:243-532 | the children of tabs, buttons, lists, forms and canvases draw what the markup says, in order |
| `GuiCorrectness.NodeMeans` | crates/common/openmines-macros/src/lib.rs:534-610 | every leaf element's calls draw what the element says |
| `GuiCorrectness.IfMeans` | crates/common/openmines-macros/src/lib.rs:232-241 | either path draws what the markup says, and evaluates the condition first, then the duplicated builder once, then the children |
| `GuiCorrectness.ForMeans` | crates/common/openmines-macros/src/lib.rs:213-230 | the list is evaluated first, then the builder; the fold then draws the children once an item on the window built so far |
| `GuiCorrectness.FoldMeans` | crates/common/openmines-macros/src/lib.rs:213-230 | the closure's one builder identifier means the window of its own level at every depth of nesting |
| `GuiCorrectness.SeqMeans` | crates/common/openmines-macros/src/lib.rs:192-241 | any list of nodes with any nesting after any builder: the window, and the evaluations one by one. Only what is inside a `<for>` must not use the macro's name |
| `GuiCorrectness.ExpansionFollows` | crates/common/openmines-macros/src/lib.rs:184-241 | the expression as a whole, for every accepted tree, environment and pure attribute: its window and the exact order of its evaluations |
| `GuiCorrectness.ExpansionPreservesMeaning` | crates/common/openmines-macros/src/lib.rs:184-241 | it builds the window the markup says and evaluates each attribute exactly as often |
| `GuiCorrectness.ExpansionKeepsOrder` | crates/common/openmines-macros/src/lib.rs:184-241 | it evaluates in the order of the markup when no condition and no list of a loop that is not a literal follows an evaluation; and only then, if the markup makes no evaluation twice |
| `GuiOrderExact.OrderExactly` | crates/common/openmines-macros/src/lib.rs:192-241 | the same for any nodes after any builder, at every depth of nesting, in both directions |
| `GuiOrderExact.ControlJumpsAhead` | crates/common/openmines-macros/src/lib.rs:213-241 | a condition or a list that follows other evaluations changes the order whatever stands inside, if none of the evaluations is repeated |
| `GuiOrder.FollowAllDraws` | crates/common/openmines-macros/src/lib.rs:192-241 | the order of the expansion is a permutation of the order of the markup, whatever the nesting |
| `GuiOrder.LiteralAllInOrder` | crates/common/openmines-macros/src/lib.rs:213-241 | markup whose conditions and lists are literals is in order |
| `GuiOrder.JumpsAhead` | crates/common/openmines-macros/src/lib.rs:232-241 | an `<if>` without children after any evaluations, repeated ones too: the order is the markup's if and only if all of them are the evaluation of the condition |
| `GuiCorrectness.CaptureChangesMeaning` | crates/common/openmines-macros/src/lib.rs:213-230 | why the theorem asks loops not to use `__openmines_gui`: a condition inside a loop that tests it takes the macro's window for the one of the surrounding program |
| `GuiCorrectness.ConditionComesFirst` | crates/common/openmines-macros/src/lib.rs:232-241 | the smallest example: a condition is evaluated before the attribute above it |
| `GuiCorrectness.ListComesFirst` | crates/common/openmines-macros/src/lib.rs:213-230 | the same for a loop: its list is evaluated before the attribute above it |
| `GuiDraws.WindowDraws` | crates/common/openmines-macros/src/lib.rs:520-532 | what the expansion does, element by element and in terms of `Keyed` attributes only, with window and evaluations: a window starts with its title and style and nothing else |
| `GuiDraws.ChildrenInOrder` | crates/common/openmines-macros/src/lib.rs:192-211 | children are drawn one after the other, each on the window of those before it |
| `GuiDraws.IfDraws` | crates/common/openmines-macros/src/lib.rs:232-241 | a condition that is true draws its children, another one nothing; it is evaluated first |
| `GuiDraws.ForDraws` | crates/common/openmines-macros/src/lib.rs:213-230 | a loop goes through the list item by item, with the item's name bound to it |
| `GuiDraws.BareDraws` | crates/common/openmines-macros/src/lib.rs:602-610 | text and blocks set the window's text, comments do nothing |
| `GuiDraws.TextDraws` | crates/common/openmines-macros/src/lib.rs:149-182 | a `<text>` shows its pieces and blocks in order |
| `GuiDraws.InputDraws` | crates/common/openmines-macros/src/lib.rs:546-552 | an `<input>` sets placeholder and console flag |
| `GuiDraws.CardDraws` | crates/common/openmines-macros/src/lib.rs:553-558 | a `<card>` sets the card |
| `GuiDraws.InventoryDraws` | crates/common/openmines-macros/src/lib.rs:559-564 | an `<inventory>` sets the inventory |
| `GuiDraws.AdminDraws` | crates/common/openmines-macros/src/lib.rs:565-570 | an `<admin>` sets the flag by its value |
| `GuiDraws.CrystalsDraws` | crates/common/openmines-macros/src/lib.rs:571-579 | `<crystals>` sets the left and right text, the lines and the buying flag |
| `GuiDraws.CloseDraws` | crates/common/openmines-macros/src/lib.rs:580-584 | a `<close-button>` adds the button that leaves |
| `GuiDraws.MinimapDraws` | crates/common/openmines-macros/src/lib.rs:585-601 | a `<minimap>` is given position, radius, chunks and markers, each in its place |
| `GuiDraws.ContainerDraws` | crates/common/openmines-macros/src/lib.rs:243-518 | tabs, buttons, lists, forms and canvases set their style, and nothing else by themselves |
| `GuiDraws.TabDraws` | crates/common/openmines-macros/src/lib.rs:243-281 | a `<tab>` is added with its caption, and with its action unless it is active |
| `GuiDraws.ButtonDraws` | crates/common/openmines-macros/src/lib.rs:283-316 | an accepted `<button>` with caption `a` and action `b` adds the button with the caption `a` says and the action `b` says |
| `GuiDraws.RowDraws` | crates/common/openmines-macros/src/lib.rs:318-352 | a `<row>` is added with title, subtitle and action |
| `GuiDraws.TextRowDraws` | crates/common/openmines-macros/src/lib.rs:354-359 | a text row of a form |
| `GuiDraws.ToggleRowDraws` | crates/common/openmines-macros/src/lib.rs:360-366 | a toggle row: caption, name and whether it is on |
| `GuiDraws.UintRowDraws` | crates/common/openmines-macros/src/lib.rs:367-373 | a number row: caption, name and number |
| `GuiDraws.ButtonRowDraws` | crates/common/openmines-macros/src/lib.rs:374-391 | a button row: caption, label and action |
| `GuiDraws.DropdownRowDraws` | crates/common/openmines-macros/src/lib.rs:393-458 | a dropdown: caption, options, name and the number selected |
| `GuiDraws.OptionDraws` | crates/common/openmines-macros/src/lib.rs:393-458 | its options one after the other, value before caption |
| `GuiDraws.RectDraws` | crates/common/openmines-macros/src/lib.rs:484-493 | a `<rect>` has its place, its size and its colour |
| `GuiDraws.TeleportDraws` | crates/common/openmines-macros/src/lib.rs:494-518 | a `<teleport-point>` has its place and its action |
| `GuiDraws.MadeInOrder` | crates/common/openmines-macros/src/lib.rs:192-211 | the trace of evaluations: each is recorded in order with its value, a literal not at all |
| `GuiDraws.ValuesOf` | crates/common/openmines-macros/src/lib.rs:68-77 | a name has its value in the program around, an operation gets the values of its arguments in order |
| `GuiDraws.TextsOf` | crates/common/openmines-macros/src/lib.rs:108-135 | how values are shown: strings as they are, flags by name, numbers in base ten without leading zeros |
| `GuiNames.DrawAllSame` | crates/common/openmines-macros/src/lib.rs:192-241 | binding a name no attribute uses changes neither the window nor the evaluations |
| `Minimap.Draw` | crates/game/openmines-protocol/src/gui.rs:326-361 | the nested loops and the marker loop append the squares, the centre and the markers, and set the size |
| `Minimap.SquareDrawnExactly` | crates/game/openmines-protocol/src/gui.rs:334-347 | at an offset there is a square of 18 by 18 and of a colour exactly when the offset is inside, the map knows the chunk and it has that colour |
| `Minimap.SquaresApart` | crates/game/openmines-protocol/src/gui.rs:334-347 | no chunk is drawn twice |
| `Minimap.PointsExactly` | crates/game/openmines-protocol/src/gui.rs:349-357 | a marker is drawn exactly when its chunk is inside, on that chunk's square |
| `GuiEncoding.FlattenCanvas` | crates/game/openmines-protocol/src/gui.rs:166-190 | the loop over the canvas pushes one or two strings an element |
| `GuiEncoding.CanvasInjective` | crates/game/openmines-protocol/src/gui.rs:166-190 | the flat canvas determines the canvas, whatever colours and actions are: one-string and two-string elements cannot be confused |
| `GuiEncoding.FlatElementExactly` | crates/game/openmines-protocol/src/gui.rs:166-190 | the strings of a rectangle and of a teleport |
| `GuiEncoding.FlatInjective` | crates/game/openmines-protocol/src/gui.rs:401-441 | a flat list of rows of fixed width determines the rows |
| `GuiEncoding.RowInFlat` | crates/game/openmines-protocol/src/gui.rs:401-441 | the fields of a row stand together, at its number times the width |
| `GuiEncoding.FieldPlaces` | crates/game/openmines-protocol/src/gui.rs:401-441 | which field of which tab, list row, form row and button stands where |
| `GuiEncoding.FlattenButtons` | crates/game/openmines-protocol/src/gui.rs:384-393 | buttons in pairs, with the leaving button appended unless the last one leaves |
| `GuiEncoding.ToJson` | crates/game/openmines-protocol/src/gui.rs:364-442 | the insertions of `to_json`, in order, give each key its value or leave it out |
| `GuiEncoding.TextsExactly` | crates/game/openmines-protocol/src/gui.rs:364-442 | the object key by key: which texts and flags are there and what they say |
| `GuiEncoding.CrystalsExactly` | crates/game/openmines-protocol/src/gui.rs:364-400 | the crystal panel is there as a whole when it has lines, and not at all otherwise |
| `GuiEncoding.ListsExactly` | crates/game/openmines-protocol/src/gui.rs:384-442 | each list is there unless it is empty; the buttons end with the one that leaves |
| `GuiEncoding.SameObjectExactly` | crates/game/openmines-protocol/src/gui.rs:364-442 | two windows are sent as the same object if and only if they differ in nothing but an empty crystal panel's rest and who added the leaving button |
| `BoxPlacement.Expand` | crates/game/openmines-storage/src/boxes.rs:30-58 | the four neighbours of one cell: the first free one ends the search, new ones join the queue, and the search invariant is kept |
| `BoxPlacement.SeenUpTo` | crates/game/openmines-storage/src/boxes.rs:26-58 | everything no further than the head of the queue has been seen, at its true distance |
| `BoxPlacement.CapReached` | crates/game/openmines-storage/src/boxes.rs:26-58 | after 100 expansions with the queue not empty, everything within seven steps has been seen: at most 85 cells lie within six |
| `Ways.RankExactly` | crates/game/openmines-storage/src/boxes.rs:26-58 | the order in which cells are found: shorter ways first, and ways of one length by the first direction in which they differ, south, east, west, north |
| `BoxPlacement.NoEarlierWay` | crates/game/openmines-storage/src/boxes.rs:26-58 | whatever a way leads to that is no longer than the queue's level has been found by a way no later in that order |
| `BoxPlacement.HitPicked` | crates/game/openmines-storage/src/boxes.rs:30-58 | the free neighbour that ends the search is the one the order picks |
| `BoxPlacement.NothingPicked` | crates/game/openmines-storage/src/boxes.rs:26-29 | when the cap ends it, no cell that the order may pick is free |
| `BoxPlacement.PicksOne` | crates/game/openmines-storage/src/boxes.rs:14-61 | the order picks at most one cell |
| `BoxPlacement.PickBoxCoord` | crates/game/openmines-storage/src/boxes.rs:14-61 | which cell it is, exactly: the one that the order of directions picks among the free cells, as long as a hundred cells have not come before; otherwise the start, if valid. The result is a nearest free cell; with all coordinates valid, nothing nine steps away is ever given, nor the cell eight steps along the last direction |
| `BoxPlacement.WithinSevenSteps` | crates/game/openmines-storage/src/boxes.rs:14-61 | around any obstacles a free cell within seven steps is found despite the cap |
| `BoxPlacement.InSmallRegion` | crates/game/openmines-storage/src/boxes.rs:14-61 | when at most a hundred cells that are not free can be reached, the search is exact at any distance |
| `BoxPlacement.WithinDistanceSeven` | crates/game/openmines-storage/src/boxes.rs:14-61 | with all coordinates valid, a free cell within Manhattan distance seven is found, and the one given is nearest |
| `BoxPlacement.EightStepsMissed` | crates/game/openmines-storage/src/boxes.rs:14-61 | seven is the best bound: a free cell eight steps away that the cap misses |
| `Skeleton.Sectors.AddLayer` | crates/game/openmines-world/src/sectors_gen.rs:137-150 | a further layer shows only where nothing lies: rock is never erased, and an empty cell becomes red rock exactly unless its noise is below the cut |
| `Skeleton.CutAtMean` | crates/game/openmines-world/src/sectors_gen.rs:81-135 | scaling every sample to [0, 1] and comparing with the mean and a margin is comparing the sample with the average and that share of the span |
| `Skeleton.Sectors.CountWindow` | crates/game/openmines-world/src/sectors_gen.rs:152-190 | the loops count the black and the empty cells of the 5x5 window |
| `Skeleton.FewerEmpties` | crates/game/openmines-world/src/sectors_gen.rs:152-235 | blackening a cell never adds an empty one to any window |
| `Skeleton.StillSheltered` | crates/game/openmines-world/src/sectors_gen.rs:152-235 | so a red cell once sheltered stays so |
| `Skeleton.Sectors.Boom` | crates/game/openmines-world/src/sectors_gen.rs:211-235 | an explosion only makes black rock, at most six cells away |
| `Skeleton.MustBlacken` | crates/game/openmines-world/src/sectors_gen.rs:152-209 | without explosions a red cell with two empty cells in its window has turned black |
| `Skeleton.ShelteredCells` | crates/game/openmines-world/src/sectors_gen.rs:152-209 | sheltered means that two empty cells in the window of a red cell are one and the same |
| `Skeleton.Sectors.CleanCell` | crates/game/openmines-world/src/sectors_gen.rs:152-209 | the treatment of one cell shelters it, and leaves a cell alone that is not red or has few black and empty cells around |
| `Skeleton.Sectors.CleanPass` | crates/game/openmines-world/src/sectors_gen.rs:152-209 | after a pass in either direction, with or without explosions, no red cell has two empty cells in its window; without explosions a red cell turns black only with two empty or more than three black cells around it, and nothing else changes; with them only cells within six steps of a red one that turned black do |
| `Skeleton.Sectors.Add` | crates/game/openmines-world/src/sectors_gen.rs:253-269 | the black-rock layer keeps that to the end |
| `Skeleton.ChanceExactly` | crates/game/openmines-world/src/sectors_gen.rs:66-69 | the chance of a row, as a comparison of whole numbers |
| `Skeleton.Sectors.Deepen` | crates/game/openmines-world/src/sectors_gen.rs:253-269 | red rock turns black by depth, none of it from row 10358 on; nothing else changes |
| `Skeleton.Sectors.Clean` | crates/game/openmines-world/src/sectors_gen.rs:237-251 | only here does rock become empty; nothing else changes |
| `Skeleton.GenerateSkeleton` | crates/game/openmines-world/src/sectors_gen.rs:281-311 | whole run, on the bytes returned: the first layer and the three over it are the noise cut at 0.45 above its mean; rock stays rock; a cell that is 117 was red rock, one that is 114 black, every other is 0; and a cell that is 117 had at most one empty cell within two steps before rock crumbled |
| `GridIndex.PlaceOfIndex` | crates/game/openmines-world/src/generator.rs:51-61 | every cell is found again from its place |
| `GridIndex.IndexOfPlace` | crates/game/openmines-world/src/generator.rs:51-61 | every place of the flat array belongs to a cell: with the row above, a bijection |
| `GridIndex.IndexSteps` | crates/game/openmines-world/src/generator.rs:51-61 | which place each cell has: down a column 1 on, over to the next column 32, to the chunk below 1024, to the chunk beside 1024 times the chunks in a column |
| `GridIndex.LayOutChunk` | crates/game/openmines-world/src/generator.rs:534-559 | a chunk task writes exactly its own slice |
| `GridIndex.LayOut` | crates/game/openmines-world/src/generator.rs:529-560 | all tasks in any order give every cell its own value and durability |
| `GridIndex.LaidOutExactly` | crates/game/openmines-world/src/generator.rs:534-559 | the first fifty rows are cleared, below them each cell is the skeleton's, which is stored column by column |
| `SectorPalette.PalettesUsable` | crates/game/openmines-world/src/sector_palette.rs:30-281 | no palette of any tier is empty; those of crystals hold nothing else and those of rocks none, and all are types of the cell table |
| `SectorPalette.InPaletteKnown` | crates/game/openmines-world/src/sector_palette.rs:30-281 | every type in a palette is one of the 126 of the cell table |
| `SectorPalette.TierExactly` | crates/game/openmines-world/src/sector_palette.rs:8-26 | the tier of a row is the number of bounds among 500, 1000, 2000, 3000, 4000, 6000, 7000, 8000, 10000, 11000, 13000, 15000, 17000 and 18000 that it has reached |
| `SectorPalette.PalettesByRow` | crates/game/openmines-world/src/sector_palette.rs:8-281 | row by row and type by type, what the palettes of a depth hold, as numbers |
| `SectorFill.GenerateInsides` | crates/game/openmines-world/src/generator.rs:65-117 | all crystals of the tier, or rocks and then crystals of the tier without repetition, of each kind at least one and never all of several |
| `SectorFill.RandomSizedParts` | crates/game/openmines-world/src/generator.rs:142-157 | drawn ranges lie within the noise's span, do not meet and belong to the arguments in order; when there are none, the draws have run out |
| `SectorFill.ScaledExactly` | crates/game/openmines-world/src/generator.rs:163-213 | noise is scaled in proportion between its least and its greatest sample, and fails when they are equal |
| `SectorFill.OnlyMatch` | crates/game/openmines-world/src/generator.rs:222-255 | with ranges that do not meet, a range that holds the value is the only one: the last match is the only match |
| `SectorFill.NoMatch` | crates/game/openmines-world/src/generator.rs:222-255 | a value in no range leaves the type as it was |
| `SectorFill.SampleAndFindTypes` | crates/game/openmines-world/src/generator.rs:222-255 | types end as the ranges say, and the counters, one a type, count every type seen after every range of every cell |
| `SectorFill.CountsAddUp` | crates/game/openmines-world/src/generator.rs:222-255 | the counters add up to cells times ranges |
| `SectorFill.CountedBefore` | crates/game/openmines-world/src/generator.rs:222-255 | a cell whose value is in none of the ranges so far has been counted once a range as what it was |
| `SectorFill.CountedAfter` | crates/game/openmines-world/src/generator.rs:222-255 | and from the range that holds its value on, ends included, once a range as that range's type |
| `SectorFill.CellsCounted` | crates/game/openmines-world/src/generator.rs:222-255 | the counts of a sample, cell after cell |
| `SectorFill.KindsCounted` | crates/game/openmines-world/src/generator.rs:222-255 | the counters have one entry a type, and one of them counts what is empty |
| `SectorFill.JudgeExactly` | crates/game/openmines-world/src/generator.rs:296-355 | the three checks on what was counted, in order: too few types, more than two in five empty, a type in too few cells; each with its own number of strikes before new ranges are drawn |
| `SectorFill.NineTries` | crates/game/openmines-world/src/generator.rs:296-355 | however the noise falls, the same ranges are tried at most nine times in a row |
| `SectorFill.StrikesBounded` | crates/game/openmines-world/src/generator.rs:296-355 | at most two, four and two strikes are ever held |
| `SectorFill.FindTypes` | crates/game/openmines-world/src/generator.rs:263-355 | the retry machine ends within 200 attempts, given that the range draws end, and the log of its attempts is that of the three checks and their strikes: what it accepts is one sample that passed them |
| `SectorFill.FillEmpty` | crates/game/openmines-world/src/generator.rs:357-369 | one type is drawn for all that is left empty, never the last of several |
| `SectorFill.FillSector` | crates/game/openmines-world/src/generator.rs:263-386 | each cell of the component is unchanged or one of the arguments, nothing else changes, a filled sector shows the sample accepted at the end of the log, and one filled with `gig` has none empty |
| `FloodFill.Flood` | crates/game/openmines-world/src/generator.rs:414-456 | one search gathers exactly a 4-connected component of the original grid, with its extents and depth |
| `FloodFill.ClosedHolds` | crates/game/openmines-world/src/generator.rs:414-456 | a set closed under open neighbours holds everything connected to it |
| `FloodFill.ConnectedExactly` | crates/game/openmines-world/src/generator.rs:414-456 | connected means that a way of open cells, each beside the next, leads from one to the other |
| `FloodFill.ExtentExactly` | crates/game/openmines-world/src/generator.rs:398-456 | the width a component is given is a coordinate difference of its first cell alone, and its height the column of one of its cells less the first row: neither is the component's extent |
| `FloodFill.DepthIsLeast` | crates/game/openmines-world/src/generator.rs:414-456 | the tracked depth is the least row of the component |
| `FloodFill.TopRow` | crates/game/openmines-world/src/generator.rs:388-492 | which is the row the scan entered it from |
| `FloodFill.FillKeeps` | crates/game/openmines-world/src/generator.rs:263-386 | filling gathered cells changes no cell the scan has still to see and no originally non-empty one |
| `FloodFill.FatesByRows` | crates/game/openmines-world/src/generator.rs:388-492 | what a batch is filled with by the row at which its last component starts, with the types of that row spelled out |
| `FloodFill.FillSectors` | crates/game/openmines-world/src/generator.rs:388-492 | the pieces are the components of the original grid although the grid is rewritten between searches; each originally empty cell is visited once; no other changes; a batch is closed at fifty cells and filled with the types of the row at which its last component starts, as numbers, or left empty, and only one of more than 40000 cells may keep some empty; fewer than fifty cells are left over |
| `FloodFill.GenerateCells` | crates/game/openmines-world/src/generator.rs:527-574 | layout and filling: skeleton rock stays, and every cell has a type of the cell table and the durability of its own type |
| `CellDefs.Load` | crates/game/openmines-world/src/cells.rs:272-313 | accepts exactly the lists with each type 0 to 125 once, gives the table in type order, and names the first bad line or the smallest missing type |
| `CellDefs.CompleteExactly` | crates/game/openmines-world/src/cells.rs:272-313 | a list is complete exactly when it has 126 lines and one of every type |
| `CellDefs.DenseUnique` | crates/game/openmines-world/src/cells.rs:272-313 | the table does not depend on the order of the file |
| `CellDefs.DurabilityTable` | crates/game/openmines-world/src/generator.rs:506-511 | 256 entries, zero beyond the definitions |
| `WorldGeneration.Generate` | crates/game/openmines-world/src/generator.rs:494-574 | loading, durability table, skeleton, layout and filling as one: it goes through exactly for complete lists, and then every cell of the world has a line in the file and that line's durability, while skeleton rock stays |
| `Orders.Database.TryUpdateOrderBetCas` | crates/game/openmines-storage/src/orders.rs:117-139 | the row changes only if buyer and cost are still those of the snapshot |
| `Orders.Database.CreateOrder` | crates/game/openmines-storage/src/orders.rs:23-41 | a new order has the next number, no buyer and no bid; nothing else changes |
| `Orders.Database.FinalizeOrderOffline` | crates/game/openmines-storage/src/orders.rs:158-246 | goods to the buyer, money to the seller unless it is the house, order gone, every other player and order as before; a stale snapshot or a missing row leaves all tables as they were |
| `Orders.FinalizedExactly` | crates/game/openmines-storage/src/orders.rs:158-246 | which of the four ways a finalisation takes, and what a sale does player by player: the buyer has the goods, the seller, if not the house, the price, and everybody and everything else is as before |
| `Auction.RunInv` | crates/server/openmines-server/src/game/logic/auction_gui.rs:349-650 | the protocol invariant over every interleaving of bidders, players that come and go, and the finaliser |
| `AuctionPlayers.MinBidExactly` | crates/server/openmines-server/src/game/logic/auction_gui.rs:44-57 | the least bid over another is the least whole number that is at least 1.01 times its price |
| `AuctionPlayers.NextGoods` | crates/server/openmines-server/src/game/logic/auction_gui.rs:345-650 | any step, any player, any kind of goods: he loses what he offers and gets what an order of his is finalised with, and nothing else |
| `AuctionPlayers.RunGoods` | crates/game/openmines-storage/src/orders.rs:23-246 | over any run a player's goods of a kind change by his own offers and by the orders finalised with him as buyer, each by its number |
| `AuctionPlayers.NextMoney` | crates/server/openmines-server/src/game/logic/auction_gui.rs:473-650 | any step, any player: who pays and who is paid, and how much |
| `AuctionPlayers.RunMoney` | crates/server/openmines-server/src/game/logic/auction_gui.rs:473-650 | over any run a player's money changes by his own debits, refunds and sales only, each in full |
| `AuctionPlayers.NextOnline` | crates/server/openmines-server/src/tasks/auction.rs:57-175 | who is online after a step: known players who have come and not gone |
| `AuctionPlayers.NextOrder` | crates/game/openmines-storage/src/orders.rs:23-139 | which order a step makes, changes or removes, with all its fields; every other one stays |
| `AuctionPlayers.NextDesk` | crates/server/openmines-server/src/tasks/auction.rs:57-175 | the finaliser's steps: payment first if either player is online, then goods, then deletion, or all at once if both are away and the order is unchanged |
| `AuctionPlayers.ListedReady` | crates/game/openmines-storage/src/orders.rs:249-260 | what is listed for it has a buyer and a bid no younger than the cutoff |
| `AuctionPlayers.NextBid` | crates/server/openmines-server/src/game/logic/auction_gui.rs:546-650 | the life of a bid, from the order loaded to the test, the debit, the comparison and the settlement; a step moves only the bid it is about |
| `AuctionMoney.NextConserves` | crates/server/openmines-server/src/game/logic/auction_gui.rs:473-650 | every step keeps the account: players, escrow, bids under way and what the finaliser has paid ahead, plus what was burnt and lost, less what was minted; and the goods of every kind |
| `AuctionMoney.RunConserves` | crates/game/openmines-storage/src/orders.rs:117-246 | the same over every run, with the two ways of finalising |
| `AuctionMoney.FinalizedOnce` | crates/server/openmines-server/src/tasks/auction.rs:57-175 | each order is finalised at most once, by the transaction or by the three steps of the online path |
| `AuctionMoney.NextLeaks` | crates/server/openmines-server/src/game/logic/auction_gui.rs:498-650 | the only steps that lose or mint money, at any prices: a loser settled while offline, a rollback that finds the order changed, and a deletion of an order whose bid has changed since it was listed |
| `AuctionMoney.NothingLostExactly` | crates/server/openmines-server/src/game/logic/auction_gui.rs:473-650 | over a run nothing is lost or minted if and only if none of these occurs in it |
| `AuctionMoney.WealthKept` | crates/server/openmines-server/src/game/logic/auction_gui.rs:473-650 | and then no money leaves the players and the auction but the house's proceeds |
| `AuctionSolvency.NextAffordable` | crates/server/openmines-server/src/game/logic/auction_gui.rs:566-645 | money checks and debits are separate, and prices may be negative: a step keeps everybody able to pay all he has been checked for, exactly unless it is a check that passes although the money is already spoken for, or pays somebody less than nothing beyond what he has free |
| `AuctionSolvency.RunSolvent` | crates/server/openmines-server/src/game/logic/auction_gui.rs:546-650 | over a run everybody can always pay if and only if it has no such step; and then nobody's money goes below zero |
| `AuctionSolvency.SolventExactly` | crates/server/openmines-server/src/game/logic/auction_gui.rs:566-582 | in any state, no continuation without further checks or draining payments overdraws if and only if everybody can pay all he has been checked for |
| `AuctionSolvency.TwoBidsOverdraw` | crates/server/openmines-server/src/game/logic/auction_gui.rs:566-582 | two bids of 100 by a player who has 100, both checked before either is paid, leave him with -100 |
| `AuctionPrices.PricesExactly` | crates/server/openmines-server/src/game/logic/auction_gui.rs:345-650 | when somebody has goods: no run with offers at zero or more and covered bids overdraws if and only if everybody can pay now and no order, bid or listed sale can still pay somebody less than nothing; one direction without goods |
| `AuctionPrices.NobodyIsSafe` | crates/server/openmines-server/src/game/logic/auction_gui.rs:345-450 | with offers below zero, which `create_order` takes, every state in which somebody has goods leads to a debt, though every bid is covered |
| `AuctionPrices.NegativePriceOverdraws` | crates/server/openmines-server/src/game/logic/auction_gui.rs:345-650 | eight steps: an offer at -100, a bid of -100 and its sale leave the bidder with 100 and the seller with -100 |
| `AuctionBids.NextAbove` | crates/server/openmines-server/src/game/logic/auction_gui.rs:498-633 | an order above a price stays above it exactly unless a rollback restores it or a bid undercuts it; above zero no bid does |
| `AuctionBids.RunAbove` | crates/server/openmines-server/src/game/logic/auction_gui.rs:498-633 | over a run it stays above in every state if and only if neither happens |
| `AuctionBids.OneWinner` | crates/server/openmines-server/src/game/logic/auction_gui.rs:584-633 | of the bids from one snapshot one wins: always when it is the first bid on the order, and at a price above zero unless a rollback has put the old price back |
| `AuctionBids.SecondWinner` | crates/server/openmines-server/src/game/logic/auction_gui.rs:498-633 | and after such a rollback it does win |
| `AuctionBids.ZeroPriceTwice` | crates/server/openmines-server/src/game/logic/auction_gui.rs:546-633 | at the price zero a second bid from the snapshot wins without any rollback, when the one who was outbid has bid nothing again |
| `AuctionBids.BidBalances` | crates/server/openmines-server/src/game/logic/auction_gui.rs:546-650 | whatever else happens in between, a bid that never wins changes a player's money by what it owed him at first, less what it still owes him and what he forfeited |
| `AuctionBids.LoserIsWhole` | crates/server/openmines-server/src/game/logic/auction_gui.rs:546-650 | so a bid that ends without winning costs its bidder what he forfeited, at any price: nothing if he was online when it was settled, and else all of it |
| `AuctionBids.LoserLeaves` | crates/server/openmines-server/src/game/logic/auction_gui.rs:584-645 | the bid that does cost him: outbid, gone, and 10 lost |
| `Orders.Database.RefundOrder` | crates/server/openmines-server/src/bootstrap.rs:152-165 | one order: goods, then bid; what is credited when a row is missing |
| `Orders.Database.RefundAll` | crates/server/openmines-server/src/bootstrap.rs:152-165 | the loop stops at the first row it cannot credit and has then credited exactly the orders before, and the goods of that one if the bidder is missing; only a complete run deletes the orders |
| `Refunds.ListTotals` | crates/server/openmines-server/src/bootstrap.rs:152-165 | summing the list of all orders is summing the table, in any order |
| `Refunds.RefundConserves` | crates/server/openmines-server/src/bootstrap.rs:152-165 | a complete refund conserves goods, pays out exactly the escrow held and leaves no order |
| `Refunds.RefundedPlayers` | crates/server/openmines-server/src/bootstrap.rs:152-165 | player by player, a complete refund gives back the goods of his own orders and the bids he made |
| `Refunds.StoppedPlayers` | crates/server/openmines-server/src/bootstrap.rs:152-165 | player by player, what a loop that stops has given: all of the orders before, and the goods alone of the one it stops at |
| `Refunds.StoppedPays` | crates/server/openmines-server/src/bootstrap.rs:152-165 | what a loop that stops has paid, in money and goods, while every order is still there |
| `Refunds.StoppedPaysTwice` | crates/server/openmines-server/src/bootstrap.rs:152-165 | run again over the same orders, it stops at the same one and has paid all that twice |
| `Refunds.HouseOrderBlocksRefund` | crates/server/openmines-server/src/bootstrap.rs:152-159 | an order of initiator 0 stops the loop, although finalising it would go through: the loop has no exemption for the house |
| `Orders.Database.AddPlayerMoney` | crates/game/openmines-storage/src/players.rs:539-554 | credits an existing row, or fails and changes nothing |
| `Orders.Database.AddPlayerInventoryItem` | crates/game/openmines-storage/src/players.rs:556-586 | the same for goods |
| `Clans.FreeIcon` | crates/game/openmines-storage/src/clans.rs:20-39 | fewer than 218 numbers in use leave one of 1 to 218 free, wherever the used ones lie |
| `Clans.Database.PickClanId` | crates/game/openmines-storage/src/clans.rs:20-39 | fails exactly when 218 or more clans exist, and else gives an unused number of the range |
| `Clans.Database.AcceptClanInvite` | crates/game/openmines-storage/src/clans.rs:275-315 | a transaction: joins and clears the player's requests and invites, or changes nothing |
| `Clans.Database.DeleteClan` | crates/game/openmines-storage/src/clans.rs:120-152 | a transaction: members leave, requests and invites go, the clan goes, or nothing |
| `Clans.ConsistentExactly` | crates/game/openmines-storage/src/clans.rs:154-265 | a step keeps clanless players without rank and references to existing clans exactly when a request or invite names an existing clan |
| `Clans.RunConsistent` | crates/game/openmines-storage/src/clans.rs:41-365 | the same over every run whose requests and invites name existing clans |
| `Clans.NextPlayer` | crates/game/openmines-storage/src/clans.rs:41-365 | when an operation goes through, and the clan and rank of every player after it, with the ranks as numbers |
| `Clans.NextPending` | crates/game/openmines-storage/src/clans.rs:41-365 | which clans, requests and invites there are after it |
| `Clans.LedExactly` | crates/game/openmines-storage/src/clans.rs:41-365 | a step leaves every clan with its owner as a member of leader's rank if and only if it deposes none: a leader who leaves, is kicked, is given another rank or founds another clan |
| `Clans.RunLed` | crates/game/openmines-storage/src/clans.rs:41-365 | the same over runs |
| `Clans.LeaderlessStays` | crates/game/openmines-storage/src/clans.rs:186-365 | an owner who has left comes back only through a request or invite of his own, and then not as leader |
| `Clans.FailureChangesNothing` | crates/game/openmines-storage/src/clans.rs:41-365 | a failed operation changes nothing |
| `Clans.MembersStay` | crates/game/openmines-storage/src/clans.rs:186-315 | no accepted request or invite moves a current member |
| `Clans.CreateThenDelete` | crates/game/openmines-storage/src/clans.rs:41-152 | deleting a clan just founded undoes it |
| `Persistence.Database.ApplyBuildingDelete` | crates/game/openmines-storage/src/buildings.rs:198-246 | row by row: the building goes, players bound to its place are unbound and no others, the box at its place is set, and the number of unbound players is returned; on a conflict of id or place nothing changes |
| `Persistence.ReplayIsOnce` | crates/game/openmines-storage/src/buildings.rs:198-246 | however often it is replayed, the state is that of once |
| `Persistence.ReplayOutcome` | crates/game/openmines-storage/src/buildings.rs:206-224 | a replay is recognised as the same deletion exactly when no other building shares the place |
| `Persistence.Database.SaveBoxesBatch` | crates/game/openmines-storage/src/boxes.rs:129-138 | the ordered fold of single writes |
| `Persistence.LastBoxWins` | crates/game/openmines-storage/src/boxes.rs:129-138 | the last write of a place decides it |
| `Persistence.UntouchedBox` | crates/game/openmines-storage/src/boxes.rs:129-138 | a place no write names keeps its box, or stays without one |
| `Persistence.Database.SaveBuildingsBatch` | crates/game/openmines-storage/src/buildings.rs:335-381 | all rows or, if one is missing, none |
| `Persistence.LastBuildingWins` | crates/game/openmines-storage/src/buildings.rs:335-381 | the last row of an id decides it; other buildings stay |
| `Persistence.Database.SavePlayerBuildingBatch` | crates/game/openmines-storage/src/lib.rs:80-175 | both rows of every pair, or nothing |
| `Persistence.PairsAreBatches` | crates/game/openmines-storage/src/lib.rs:80-175 | a batch of pairs is a batch of players and a batch of buildings |
| `Persistence.LastPlayerWins` | crates/game/openmines-storage/src/lib.rs:80-175 | the last row of a player decides the two columns it writes; his others are kept, and so are players without a row |
| `Skills.LvlSummary` | crates/game/openmines-storage/src/players.rs:73-83 | the saturating fold in any order is the exact sum clamped to `i32` |
| `Skills.SlotsBounded` | crates/game/openmines-storage/src/players.rs:73-76 | there are at most 2^32 slots, so the `i64` fold cannot saturate |
| `Skills.LeExactly` | crates/game/openmines-storage/src/players.rs:104-117 | dictionary order: a beginning first, or the first characters that differ decide |
| `Skills.SlotCount` | crates/game/openmines-storage/src/players.rs:94-122 | at least twenty slots, and more only if the old format says so |
| `Skills.MigrateOldSkills` | crates/game/openmines-storage/src/players.rs:94-122 | the legacy skills by code, slot after slot, and the slot count at least 20, whatever the order of the map |
| `Skills.MigratedUnique` | crates/game/openmines-storage/src/players.rs:94-122 | two results for the same legacy skills are equal |
| `Skills.SlotsInOrder` | crates/game/openmines-storage/src/players.rs:104-117 | the slots are 0, 1, 2 and so on, in dictionary order of distinct codes |
| `Skills.Find` | crates/game/openmines-storage/src/players.rs:66-68 | finds an entry with the code if there is one |
| `Skills.FoundIsLegacy` | crates/game/openmines-storage/src/players.rs:66-122 | after a migration every entry has its code's legacy level and experience |
| `Skills.AllFoundExactly` | crates/game/openmines-storage/src/players.rs:94-122 | every legacy code is found if and only if there are at most 2^31 of them: beyond that slot numbers fall back on 0 |
| `Framing.Sender.Encode` | crates/game/openmines-protocol/src/lib.rs:44-53 | the frame is appended, or, when its length does not fit 32 bits, nothing is |
| `Framing.Sender.EncodeAll` | crates/game/openmines-protocol/src/lib.rs:44-53 | the stream of the packets that can be encoded |
| `Framing.FrameExactly` | crates/game/openmines-protocol/src/lib.rs:44-53 | a frame byte by byte: length with the header, lowest byte first, type, event, payload |
| `Framing.AttemptExactly` | crates/game/openmines-protocol/src/lib.rs:62-88 | for every buffer, which of the five outcomes an attempt has, with 7 and 65536 as the bounds |
| `Framing.Receiver.TryDecode` | crates/game/openmines-protocol/src/lib.rs:62-88 | a packet comes off the front and the buffer shrinks by seven or more, or the buffer is untouched |
| `Framing.Receiver.Receive` | crates/game/openmines-protocol/src/lib.rs:62-88 | the decoding loop after each arrival is the draining of the buffer |
| `Framing.DrainedInTwo` | crates/game/openmines-protocol/src/lib.rs:62-88 | draining early loses nothing and changes nothing |
| `Framing.FragmentationIrrelevant` | crates/game/openmines-protocol/src/lib.rs:62-88 | for any bytes, good or bad, and any cuts: the same packets, rest and error |
| `Framing.DecodeFrame` | crates/game/openmines-protocol/src/lib.rs:44-88 | an encoded packet is decoded exactly when its wire length is at most 65536 |
| `Framing.RoundTrip` | crates/game/openmines-protocol/src/lib.rs:44-88 | whatever is sent, in any pieces: all packets up to the first beyond the receiver's limit arrive as they were, and that one is reported |
| `Framing.AllArriveExactly` | crates/game/openmines-protocol/src/lib.rs:44-88 | everything arrives and nothing is left behind if and only if no packet is longer than 65536 |
| `Framing.AuditParse` | tools/om_net.py:59-66 | the second parser's loop |
| `Framing.ParsersAgreeExactly` | tools/om_net.py:59-66 | the parsers split a stream the same way if and only if its first length outside 7 to 65536 is not within the audit client's mebibyte with a complete frame; the audit client never has fewer packets |
| `Framing.ParsersDiffer` | tools/om_net.py:59-66 | every packet between the two limits is a stream on which they differ |
| `Framing.AuditReadsPackets` | tools/om_net.py:59-66 | the audit client reads all that a server can encode up to the first packet beyond a mebibyte |
| `Framing.ParsersOnPackets` | tools/om_net.py:59-66 | for each parser, exactly which packets a server may send for all of them to be read |
| `Noise.FractionInUnit` | crates/game/openmines-world/anl_reference/Noise.cs:19-22 | the fraction left by `FastFloor` lies in (0, 1] up to zero and in [0, 1) beyond: at whole numbers up to zero it is 1 |
| `Noise.BlendInUnit` | crates/game/openmines-world/anl_reference/Noise.cs:62-80 | every interpolation maps [0, 1] into itself |
| `Noise.QuinticInUnit` | crates/game/openmines-world/anl_reference/Noise.cs:77-80 | in particular the quintic one |
| `Noise.LerpBetween` | crates/game/openmines-world/anl_reference/Noise.cs:83-86 | interpolating keeps a bound |
| `NoiseLaws.FloorExactly` | crates/game/openmines-world/anl_reference/Noise.cs:19-22 | the lattice cell of every coordinate, on both sides of zero |
| `NoiseLaws.BlendExactly` | crates/game/openmines-world/anl_reference/Noise.cs:62-80 | the interpolations as polynomials |
| `NoiseLaws.CornersExactly` | crates/game/openmines-world/anl_reference/Noise.cs:83-86 | the share that each corner of the cell has in the blend |
| `NoiseLaws.ValueAtExactly` | crates/game/openmines-world/anl_reference/Noise.cs:206-213 | the value of a lattice point spreads its hash over [-1, 1] |
| `NoiseLaws.GradientAtExactly` | crates/game/openmines-world/anl_reference/Noise.cs:242-255 | the slope of a lattice point: along an axis and one way or the other by its hash |
| `NoiseLaws.NoiseExactly` | crates/game/openmines-world/anl_reference/Noise.cs:483-639 | value and gradient noise are blends of the four lattice points around, each with the share of its own corner |
| `Noise.NoiseBounded` | crates/game/openmines-world/anl_reference/Noise.cs:206-639 | value and gradient noise lie in [-1, 1] and their sum in [-2, 2], everywhere |
| `Noise.GradientSharp` | crates/game/openmines-world/anl_reference/Noise.cs:540-639 | interpolated gradient noise stays within three quarters |
| `Noise.NoiseSharp` | crates/game/openmines-world/anl_reference/Noise.cs:206-639 | gradient-value noise stays within 508/255 for every interpolation, none included |
| `Fractal.RidgeSumBounded` | crates/game/openmines-world/anl_reference/ImplicitFractal.cs:668-687 | signals in [-2, 2] give a sum between 0 and the total weight |
| `Fractal.ShareScaled` | crates/game/openmines-world/anl_reference/ImplicitFractal.cs:288-311 | the stored scale and bias map that range onto [-1, 1] |
| `Fractal.RidgedMulti.constructor` | crates/game/openmines-world/anl_reference/ImplicitFractal.cs:288-311 | the weight loop stores for each octave count the scale and bias of its own total |
| `Fractal.RidgedMulti.RidgedGet` | crates/game/openmines-world/anl_reference/ImplicitFractal.cs:668-687 | the value lies in [-1, 1] for every octave count from 1 to 19 |
| `Fractal.RidgedMulti.Get` | crates/game/openmines-world/anl_reference/ImplicitFractal.cs:153-180 | so the final clamp is the identity |
| `NoiseLaws.SignalExactly` | crates/game/openmines-world/anl_reference/ImplicitFractal.cs:668-687 | the k-th octave takes the k-th source, turned by its own angle, at the point scaled k times |
| `NoiseLaws.RidgedExactly` | crates/game/openmines-world/anl_reference/ImplicitFractal.cs:288-687 | the value is twice the share of the weighted squares of what remains of each signal's distance from one, less one |
| `Fractal.BrownianBounded` | crates/game/openmines-world/anl_reference/ImplicitFractal.cs:408-423 | octaves within a bound add up to no more than that bound times their total weight |
| `Fractal.BrownianGet` | crates/game/openmines-world/anl_reference/ImplicitFractal.cs:408-423 | the loop computes that sum, and `Get` clamps it |
| `NoiseLaws.BrownianExactly` | crates/game/openmines-world/anl_reference/ImplicitFractal.cs:408-423 | and that sum has a term for each octave: the noise of its own source, turned and scaled as above, by its weight |
| `Fractal.ClampIdleExactly` | crates/game/openmines-world/anl_reference/ImplicitFractal.cs:153-180 | the clamp leaves every sum of gradient-value noise alone, whatever the hashes, interpolation, rotations and point, if and only if the total weight is at most 255/508; beyond that the origin exceeds it with noise that is not interpolated |
| `Fractal.BrownianNeedsClamp` | crates/game/openmines-world/anl_reference/ImplicitFractal.cs:153-423 | the first weight is 1: for each interpolation there are hashes and a point at which the clamp changes the sum, if and only if the frequency is not zero, there is a second octave, or nothing is interpolated |

## Left out

Stated weaker than the source, or on fewer inputs:

- MapModel.SetCellValid: stores of more than 2^31 - 1 blocks are not valid in the model; the source panics on the slot that no longer fits.
- MapCodec.DecodeSerialized: the slot count wraps as in a release build; a debug build panics on the one table entry that makes it wrap.
- MapFlush.RunCovered: one batch is in flight at a time; the worlds' layers, the journal and `DetachedMapFlush` are not part of this model. Generation numbers do not wrap at 2^64.
- GuiCorrectness.ExpansionFollows: for pure attribute expressions, and with `__openmines_gui` not used inside a `<for>`. Moves, borrows, spans and token printing are not modelled; what a minimap draws is a parameter there and modelled in `Minimap`.
- GuiDraws.DropdownRowDraws: like the other draws, for values of the type that the builder's method takes; with others the expansion does not compile.
- BoxPlacement.PickBoxCoord: coordinates do not overflow `i32`.
- SectorFill.RandomSizedParts: the source redraws without bound until a range fits; the model gives the generator a budget of draws and says what is left when it runs out.
- GridIndex.LayOut: a cell's durability is one real, not four bytes of an `f32`.
- Skeleton.Sectors.Boom: how far and where an explosion spreads is random; only its bounds are stated.
- AuctionMoney.RunConserves: database errors while an order is created or finalised, and the rollback of a credit that fails in turn, are not modelled; nor is the saving of a player who leaves. `min_bid` is computed in exact arithmetic instead of `f64`.
- AuctionPrices.PricesExactly: the direction from safety back to the state asks that somebody has goods; in a world in which nobody can offer anything, an unpaid debt may have no order to be spent on first.
- Clans.Database.PickClanId: one free number is chosen where the source draws until it hits one.
- Noise.NoiseBounded: over reals; the hash is any function to 0..255, not the FNV-1A hash of a seed; of the gradient tables only the one for 2D is modelled.
- Fractal.RidgedMulti.RidgedGet: ridged and fractal Brownian noise in 2D; other fractal types, 3D and higher, and domain rotation beyond a linear map are left out. The octave weights `Lacunarity^(-iH)` are any positive numbers.
- Minimap.Draw: `i32` overflow far from the origin.
- GuiEncoding.SameObjectExactly: the object is a table of keys; printing it as JSON text is left out.

Not modelled at all:

- SQL text, migrations, row parsing and the network, clocks and files beyond the device of the map store.
- `save_players_batch`, which has the shape of `save_buildings_batch`; creating and listing rows.
- The game kernel, the persistence worker, the proxy, `packets.rs` and the Rust `anl` port.
- Exact .NET random numbers and floating-point rounding, which the repository settles by golden hashes.
- `AddDistance` and the cellular function of `Noise.cs`, simplex noise, lookup tables.
- Configuration, logging, metrics, command line, console, administration pages, exporters and layout audits: input and output with flat checks.
