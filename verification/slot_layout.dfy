/**
 The dark-matter furnace container's slot layout: which container slot shows
 which index of which of the tile's item handlers, where it is drawn, and
 what it lets a player insert. Container slots 0..18 belong to the furnace;
 the player's inventory follows from slot 19.
 */
module SlotLayout {
  import opened Stacks
  import opened Host

  /** The tile's three item handlers. */
  datatype Handler = Fuel | Input | Output

  /** The insertion predicates the furnace slots are built with. */
  datatype Filter =
    | FurnaceFuel       // the host's fuel-slot predicate
    | HasSmeltingResult // the tile can smelt the stack
    | RejectAll         // nothing may be inserted by hand

  /** A furnace slot: a view of `handler[index]` drawn at pixel (x, y). */
  datatype SlotDesc = SlotDesc(handler: Handler, index: int, x: int, y: int, filter: Filter)

  const FUEL_SLOT: int := 0
  const INPUT_SLOT: int := 1
  const INPUT_STORAGE_START: int := 2
  const OUTPUT_SLOT: int := 10
  const OUTPUT_STORAGE_START: int := 11
  /** The first player-inventory slot, one past the last furnace slot. */
  const PLAYER_START: int := 19
  /** The player's main inventory and hotbar. */
  const PLAYER_SLOTS: int := 36
  const SLOT_COUNT: int := PLAYER_START + PLAYER_SLOTS

  /** Whether slot `s` lets a player put `stack` into it. */
  predicate Accepts(host: Host, s: SlotDesc, stack: Stack) {
    match s.filter
    case FurnaceFuel => host.fuelSlotFilter(stack)
    case HasSmeltingResult => host.smeltable(stack)
    case RejectAll => false
  }

  /**
   Reference layout in closed form, for an input handler of `n` slots and an
   output handler of `m` slots. The two storage blocks are 2 columns of 4,
   filled column by column, taking handler indices downward from the end.
   */
  function SlotAt(n: nat, m: nat, k: int): (s: SlotDesc)
    requires 0 <= k < PLAYER_START
  {
    if k == FUEL_SLOT then
      SlotDesc(Fuel, 0, 49, 53, FurnaceFuel)
    else if k == INPUT_SLOT then
      SlotDesc(Input, 0, 49, 17, HasSmeltingResult)
    else if k < OUTPUT_SLOT then
      var p := k - INPUT_STORAGE_START;
      SlotDesc(Input, n - 1 - p, 13 + (p / 4) * 18, 8 + (p % 4) * 18, HasSmeltingResult)
    else if k == OUTPUT_SLOT then
      SlotDesc(Output, m - 1, 109, 35, RejectAll)
    else
      var p := k - OUTPUT_STORAGE_START;
      SlotDesc(Output, m - 2 - p, 131 + (p / 4) * 18, 8 + (p % 4) * 18, RejectAll)
  }

  lemma DivMod4(i: int, j: int)
    requires 0 <= i && 0 <= j < 4
    ensures (4 * i + j) / 4 == i && (4 * i + j) % 4 == j
  {
  }

  /**
   Builds the furnace slots in the order the container adds them: the fuel
   slot, input 0, the input storage block with a counter running down from
   the input handler's last index, the output slot and the output storage
   block with a counter running down from the output handler's last index.
   */
  method InitSlots(n: nat, m: nat) returns (slots: seq<SlotDesc>)
    ensures |slots| == PLAYER_START
    ensures forall k :: 0 <= k < |slots| ==> slots[k] == SlotAt(n, m, k)
  {
    slots := [SlotDesc(Fuel, 0, 49, 53, FurnaceFuel)];
    slots := slots + [SlotDesc(Input, 0, 49, 17, HasSmeltingResult)];

    var counter := n - 1;
    var i := 0;
    while i < 2
      invariant 0 <= i <= 2
      invariant |slots| == INPUT_STORAGE_START + 4 * i
      invariant counter == n - 1 - 4 * i
      invariant forall k :: 0 <= k < |slots| ==> slots[k] == SlotAt(n, m, k)
    {
      var j := 0;
      while j < 4
        invariant 0 <= j <= 4
        invariant |slots| == INPUT_STORAGE_START + 4 * i + j
        invariant counter == n - 1 - (4 * i + j)
        invariant forall k :: 0 <= k < |slots| ==> slots[k] == SlotAt(n, m, k)
      {
        DivMod4(i, j);
        slots := slots + [SlotDesc(Input, counter, 13 + i * 18, 8 + j * 18, HasSmeltingResult)];
        counter := counter - 1;
        j := j + 1;
      }
      i := i + 1;
    }

    counter := m - 1;
    slots := slots + [SlotDesc(Output, counter, 109, 35, RejectAll)];
    counter := counter - 1;

    i := 0;
    while i < 2
      invariant 0 <= i <= 2
      invariant |slots| == OUTPUT_STORAGE_START + 4 * i
      invariant counter == m - 2 - 4 * i
      invariant forall k :: 0 <= k < |slots| ==> slots[k] == SlotAt(n, m, k)
    {
      var j := 0;
      while j < 4
        invariant 0 <= j <= 4
        invariant |slots| == OUTPUT_STORAGE_START + 4 * i + j
        invariant counter == m - 2 - (4 * i + j)
        invariant forall k :: 0 <= k < |slots| ==> slots[k] == SlotAt(n, m, k)
      {
        DivMod4(i, j);
        slots := slots + [SlotDesc(Output, counter, 131 + i * 18, 8 + j * 18, RejectAll)];
        counter := counter - 1;
        j := j + 1;
      }
      i := i + 1;
    }
  }

  /** Container slots 1..9, which view the input handler. */
  predicate InputSlotIndex(k: int) {
    INPUT_SLOT <= k < OUTPUT_SLOT
  }

  /** Container slots 10..18, which view the output handler. */
  predicate OutputSlotIndex(k: int) {
    OUTPUT_SLOT <= k < PLAYER_START
  }

  /** The furnace slots split into one fuel slot, nine input slots and nine output slots, in that order. */
  lemma HandlerRegions(n: nat, m: nat, k: int)
    requires 0 <= k < PLAYER_START
    ensures SlotAt(n, m, k).handler == Fuel <==> k == FUEL_SLOT
    ensures SlotAt(n, m, k).handler == Input <==> InputSlotIndex(k)
    ensures SlotAt(n, m, k).handler == Output <==> OutputSlotIndex(k)
  {
  }

  /** Slot 0 shows fuel index 0 under the fuel filter; slot 1 shows input index 0 under the smelting filter. */
  lemma FuelAndFirstInput(host: Host, n: nat, m: nat, stack: Stack)
    ensures SlotAt(n, m, FUEL_SLOT).handler == Fuel && SlotAt(n, m, FUEL_SLOT).index == 0
    ensures Accepts(host, SlotAt(n, m, FUEL_SLOT), stack) <==> host.fuelSlotFilter(stack)
    ensures SlotAt(n, m, INPUT_SLOT).handler == Input && SlotAt(n, m, INPUT_SLOT).index == 0
    ensures Accepts(host, SlotAt(n, m, INPUT_SLOT), stack) <==> host.smeltable(stack)
  {
  }

  /** Every input slot accepts exactly the stacks the tile can smelt. */
  lemma InputSlotsAcceptSmeltable(host: Host, n: nat, m: nat, k: int, stack: Stack)
    requires InputSlotIndex(k)
    ensures Accepts(host, SlotAt(n, m, k), stack) <==> host.smeltable(stack)
  {
  }

  /** No output slot accepts any stack put in by hand. */
  lemma OutputSlotsRejectAll(host: Host, n: nat, m: nat, k: int, stack: Stack)
    requires OutputSlotIndex(k)
    ensures !Accepts(host, SlotAt(n, m, k), stack)
  {
  }

  /** Storage slot 2 + 4i + j shows input index n - 1 - (4i + j) in column i, row j. */
  lemma InputStorageColumnMajor(n: nat, m: nat, i: int, j: int)
    requires 0 <= i < 2 && 0 <= j < 4
    ensures var s := SlotAt(n, m, INPUT_STORAGE_START + 4 * i + j);
      s.index == n - 1 - (4 * i + j) && s.x == 13 + 18 * i && s.y == 8 + 18 * j
  {
    DivMod4(i, j);
  }

  /** Storage slot 11 + 4i + j shows output index m - 2 - (4i + j) in column i, row j. */
  lemma OutputStorageColumnMajor(n: nat, m: nat, i: int, j: int)
    requires 0 <= i < 2 && 0 <= j < 4
    ensures var s := SlotAt(n, m, OUTPUT_STORAGE_START + 4 * i + j);
      s.index == m - 2 - (4 * i + j) && s.x == 131 + 18 * i && s.y == 8 + 18 * j
  {
    DivMod4(i, j);
  }

  /** The nine input slots show nine distinct, existing input indices. */
  ghost predicate InputIndicesValid(n: nat, m: nat) {
    && (forall k :: InputSlotIndex(k) ==> 0 <= SlotAt(n, m, k).index < n)
    && (forall a, b :: InputSlotIndex(a) && InputSlotIndex(b) && a != b ==>
          SlotAt(n, m, a).index != SlotAt(n, m, b).index)
  }

  /** The nine output slots show nine distinct, existing output indices. */
  ghost predicate OutputIndicesValid(n: nat, m: nat) {
    && (forall k :: OutputSlotIndex(k) ==> 0 <= SlotAt(n, m, k).index < m)
    && (forall a, b :: OutputSlotIndex(a) && OutputSlotIndex(b) && a != b ==>
          SlotAt(n, m, a).index != SlotAt(n, m, b).index)
  }

  /** The input slots are sound exactly when the input handler has at least nine slots. */
  lemma InputIndicesValidIff(n: nat, m: nat)
    ensures InputIndicesValid(n, m) <==> n >= 9
    ensures n == 8 ==> SlotAt(n, m, 9).index == SlotAt(n, m, INPUT_SLOT).index
    ensures n < 8 ==> SlotAt(n, m, 9).index < 0
  {
    if n < 9 {
      if n == 8 {
        assert SlotAt(n, m, 9).index == SlotAt(n, m, INPUT_SLOT).index;
      } else {
        assert SlotAt(n, m, 9).index < 0;
      }
    }
  }

  /** The output slots are sound exactly when the output handler has at least nine slots. */
  lemma OutputIndicesValidIff(n: nat, m: nat)
    ensures OutputIndicesValid(n, m) <==> m >= 9
    ensures m < 9 ==> SlotAt(n, m, 18).index < 0
  {
    if m < 9 {
      assert SlotAt(n, m, 18).index < 0;
    }
  }

  /** With exactly nine input slots, every input index is shown by some input slot. */
  lemma NineInputsCovered(m: nat, t: int)
    requires 0 <= t < 9
    ensures exists k :: InputSlotIndex(k) && SlotAt(9, m, k).index == t
  {
    if t == 0 {
      assert SlotAt(9, m, INPUT_SLOT).index == 0;
    } else {
      assert SlotAt(9, m, 10 - t).index == t;
    }
  }

  /** With exactly nine output slots, every output index is shown by some output slot. */
  lemma NineOutputsCovered(n: nat, t: int)
    requires 0 <= t < 9
    ensures exists k :: OutputSlotIndex(k) && SlotAt(n, 9, k).index == t
  {
    assert SlotAt(n, 9, 18 - t).index == t;
  }

  /**
   With at least nine input and nine output handler slots, no two furnace
   slots view the same handler cell, so each container slot can be treated
   as a cell of its own.
   */
  lemma FurnaceCellsDistinct(n: nat, m: nat, a: int, b: int)
    requires n >= 9 && m >= 9
    requires 0 <= a < PLAYER_START && 0 <= b < PLAYER_START && a != b
    ensures SlotAt(n, m, a).handler != SlotAt(n, m, b).handler || SlotAt(n, m, a).index != SlotAt(n, m, b).index
  {
    InputIndicesValidIff(n, m);
    OutputIndicesValidIff(n, m);
  }
}
