# Dark-matter furnace container, modelled in Dafny

This project models the container behind the dark-matter furnace screen in
ProjectE (`DMFurnaceContainer`). It covers two things:

- **Slot layout** (`initSlots`). Container slot 0 views the fuel handler.
  Slot 1 views input index 0. Slots 2..9 view the input handler's indices
  from the last one downward, two columns of four. Slot 10 and slots 11..18
  view the output handler's indices from the last one downward. The player
  inventory follows from slot 19 up to 54. Each slot carries its insertion
  predicate: fuel, "has a smelting result", or "reject everything".
- **Shift-click** (`transferStackInSlot`). A stack from a furnace slot goes
  to the player range [19, 55). A stack from a player slot goes to the fuel
  slot [0, 1) if it is fuel or an EMC holder. Otherwise it goes to the input
  slots [1, 10) if it can be smelted. Otherwise nothing happens. After a
  successful merge the source slot is cleared or marked changed, and the
  pre-merge stack is handed back.

Host pieces are abstract:

- The stack classifications are uninterpreted predicates in a `Host` value.
  These are the vanilla fuel test, the EMC-holder capability, a non-empty
  smelting result and the fuel slot's predicate.
- The host's `mergeItemStack` is a function from a slot range [start, end)
  to a merge outcome. The transfer calls it with the bounds the route picks,
  as the code does. It requires the merge to obey a contract
  (`Host.MergeObeys`) for every range. A failure moves nothing. A success
  moves at least one item, writes only slots in the half-open range
  [start, end), and keeps the item total.

Files:

- `stacks.dfy`: stacks and item totals.
- `host.dfy`: host predicates and the merge contract.
- `slot_layout.dfy`: the layout. It has a closed-form reference `SlotAt` and
  a loop method `InitSlots` that mirrors the source's counters.
- `quick_move.dfy`: routing and the transfer.

The merge bounds are half-open, as the host's `mergeItemStack` treats them.
`mergeItemStack(stack, 0, 1, false)` means the fuel slot only. So the input
route targets slots 1..9, not 1..10, and the player route targets slots
19..54, not 19..55. Reading those bounds as inclusive would disagree with
the code, and the model follows the code.

## Model

| member | source | states |
|---|---|---|
| SlotLayout.InitSlots | src/main/java/moze_intel/projecte/gameObjs/container/DMFurnaceContainer.java:36-61 | Adding the slots in source order, with the two down-counting counters, gives exactly 19 furnace slots. Each one equals the closed-form layout `SlotAt`. The player block therefore starts at slot 19. |
| SlotLayout.HandlerRegions | src/main/java/moze_intel/projecte/gameObjs/container/DMFurnaceContainer.java:36-61 | Slot 0 is the only fuel slot. Slots 1..9 are exactly the input-handler slots. Slots 10..18 are exactly the output-handler slots. |
| SlotLayout.FuelAndFirstInput | src/main/java/moze_intel/projecte/gameObjs/container/DMFurnaceContainer.java:36-40 | Slot 0 views fuel index 0 and accepts what the fuel predicate accepts. Slot 1 views input index 0 and accepts a stack iff its smelting result is non-empty. |
| SlotLayout.InputSlotsAcceptSmeltable | src/main/java/moze_intel/projecte/gameObjs/container/DMFurnaceContainer.java:40-49 | Every input slot (1..9) accepts a stack iff the tile's smelting result for it is non-empty. |
| SlotLayout.OutputSlotsRejectAll | src/main/java/moze_intel/projecte/gameObjs/container/DMFurnaceContainer.java:53-61 | No output slot (10..18) accepts any stack inserted by hand. |
| SlotLayout.InputStorageColumnMajor | src/main/java/moze_intel/projecte/gameObjs/container/DMFurnaceContainer.java:42-49 | Slot 2+4i+j views input index n-1-(4i+j). It is drawn at column i, row j: x = 13+18i, y = 8+18j. |
| SlotLayout.OutputStorageColumnMajor | src/main/java/moze_intel/projecte/gameObjs/container/DMFurnaceContainer.java:51-61 | Slot 11+4i+j views output index m-2-(4i+j). It is drawn at x = 131+18i, y = 8+18j. |
| SlotLayout.InputIndicesValidIff | src/main/java/moze_intel/projecte/gameObjs/container/DMFurnaceContainer.java:39-49 | The nine input slots view distinct, existing input indices iff the input handler has at least 9 slots. With 8 slots, slot 9 views the same index as slot 1. With fewer, slot 9's index is negative. |
| SlotLayout.OutputIndicesValidIff | src/main/java/moze_intel/projecte/gameObjs/container/DMFurnaceContainer.java:51-61 | The nine output slots view distinct, existing output indices iff the output handler has at least 9 slots. With fewer, slot 18's index is negative. |
| SlotLayout.NineInputsCovered | src/main/java/moze_intel/projecte/gameObjs/container/DMFurnaceContainer.java:39-49 | With exactly 9 input slots, every input index 0..8 is viewed by some container slot in 1..9. |
| SlotLayout.NineOutputsCovered | src/main/java/moze_intel/projecte/gameObjs/container/DMFurnaceContainer.java:51-61 | With exactly 9 output slots, every output index 0..8 is viewed by some container slot in 10..18. |
| SlotLayout.FurnaceCellsDistinct | src/main/java/moze_intel/projecte/gameObjs/container/DMFurnaceContainer.java:37-61 | With at least 9 input and 9 output handler slots, no two of the 19 furnace slots view the same handler cell. |
| QuickMove.RouteFor | src/main/java/moze_intel/projecte/gameObjs/container/DMFurnaceContainer.java:78-92 | Every route stays within the 55 container slots and never targets its own source slot. From a player slot, no route reaches an output slot. From a furnace slot, the route targets exactly slots 19..54. |
| QuickMove.TransferStackInSlot | src/main/java/moze_intel/projecte/gameObjs/container/DMFurnaceContainer.java:68-100 | The slot event is "untouched" iff the empty stack is returned, and then nothing changes. A non-empty result is the source slot's pre-merge stack. Only the source slot and the route's targets can change. The total item count is kept. |
| QuickMove.NoStackNoEffect | src/main/java/moze_intel/projecte/gameObjs/container/DMFurnaceContainer.java:69-73 | A missing or empty source slot returns the empty stack and changes no slot. |
| QuickMove.MovedIff | src/main/java/moze_intel/projecte/gameObjs/container/DMFurnaceContainer.java:71-99 | A non-empty stack is returned iff three things hold: the slot held a stack, a route was chosen, and the merge succeeded. |
| QuickMove.FurnaceSideGoesToPlayer | src/main/java/moze_intel/projecte/gameObjs/container/DMFurnaceContainer.java:78-81 | From slots 0..18, no furnace slot other than the source changes. If the merge fails, the result is empty and nothing changes. |
| QuickMove.PlayerSideRouting | src/main/java/moze_intel/projecte/gameObjs/container/DMFurnaceContainer.java:82-92 | From a player slot, fuel or EMC holders are routed to [0,1), even when they are smeltable. Other smeltable stacks are routed to [1,10). Anything else is refused, with no effect. |
| QuickMove.PlayerSideNeverTouchesOutputs | src/main/java/moze_intel/projecte/gameObjs/container/DMFurnaceContainer.java:82-92 | No shift-click from a player slot changes any output slot 10..18. |
| QuickMove.SourceWriteBack | src/main/java/moze_intel/projecte/gameObjs/container/DMFurnaceContainer.java:75-99 | After a successful merge, an exhausted source slot is set to the empty stack. Otherwise the slot keeps the remainder and is marked changed. The returned stack is the pre-merge copy, never the remainder. |
| QuickMove.RoutesMatchLayout | src/main/java/moze_intel/projecte/gameObjs/container/DMFurnaceContainer.java:82-89 | Within the furnace, the fuel route targets exactly the fuel-handler slot. The input route targets exactly the input-handler slots. The player route targets no furnace slot. |
| QuickMove.InputRouteAccepted | src/main/java/moze_intel/projecte/gameObjs/container/DMFurnaceContainer.java:86-88 | Every slot a smeltable stack is routed to would also accept that stack by hand. |

## Left out

- `canInteractWith`: it reads world block state and compares a floating-point squared distance. Both are host state.
- The constructor and `fromNetwork`: they deserialise a packet buffer and look up the tile through `GuiHandler`, which is not part of this model.
- `ContainerHelper.addPlayerInventory` is not part of this model. Only its extent is modelled: 36 slots at container indices 19..54, as the merge bounds on line 79 imply. The order of player slots inside that block and their positions are not modelled.
- QuickMove.TransferStackInSlot: treats the 55 container slots as independent cells. In the program, each furnace slot is a view of one handler index. The two agree only when the input and output handlers each have at least 9 slots (`InputIndicesValidIff`, `OutputIndicesValidIff`, `FurnaceCellsDistinct`). With 8 input slots, slots 1 and 9 show the same cell, so a move out of one also empties the other. With fewer slots, a slot has a negative index, and the host fails when it reads that slot. The model does not represent either situation.
- QuickMove.TransferStackInSlot: the host's merge shrinks the live source stack in place, and the container then only marks the slot changed. The model writes the remainder back into the source slot explicitly instead. The resulting contents are the same.
- Internals of `mergeItemStack`, such as stack-size limits, item equality and which target slot is filled first. Only the contract in `Host.MergeObeys` is kept.
- `AbstractFurnaceTileEntity.isFuel`, the EMC-holder capability lookup, `DMFurnaceTile.getSmeltingResult` and `SlotPredicates.FURNACE_FUEL`: these are uninterpreted predicates.
- `ValidatedSlot` is not part of this model. A slot's acceptance is modelled as its predicate alone, without any extra emptiness check the slot class might add.
- Stacks: a stack is empty iff its count is 0. The host's air item, metadata and capabilities are not modelled.
- `getSlot` on an index with no slot: the model treats it as the `slot == null` branch (empty result, no change). The host's own behaviour for an out-of-range index is not modelled.
- The `player` argument of `transferStackInSlot` is unused by the code and is not modelled.
