/**
 Shift-click ("quick move") in the dark-matter furnace container: a stack
 picked from one slot is routed to a range of container slots chosen by
 where it came from and what the host says it is, merged there by the
 host, and the source slot is written back.
 */
module QuickMove {
  import opened Stacks
  import opened Host
  import opened SlotLayout

  /** The slot range a quick move merges into, or the decision not to move. */
  datatype Route = MergeInto(start: int, end: int) | Reject

  /** The target ranges of the three routes. */
  const TO_PLAYER: Route := MergeInto(PLAYER_START, SLOT_COUNT)
  const TO_FUEL: Route := MergeInto(FUEL_SLOT, INPUT_SLOT)
  const TO_INPUT: Route := MergeInto(INPUT_SLOT, OUTPUT_SLOT)

  /** The last slot index that belongs to the furnace rather than the player. */
  const LAST_FURNACE_SLOT: int := PLAYER_START - 1

  /** Whether container slot `k` is a target of `route`. */
  predicate Targets(route: Route, k: int) {
    route.MergeInto? && InRange(k, route.start, route.end)
  }

  /**
   The routing decision for a stack taken from slot `src`: furnace slots
   empty into the player inventory; from the player side fuel (or an EMC
   holder) goes to the fuel slot before smeltability is even asked, a
   smeltable stack goes to the input slots, and anything else stays.
   */
  function RouteFor(host: Host, src: int, stack: Stack): (r: Route)
    ensures r.MergeInto? ==> 0 <= r.start < r.end <= SLOT_COUNT
    ensures !Targets(r, src)
    ensures src > LAST_FURNACE_SLOT ==> forall k :: Targets(r, k) ==> !OutputSlotIndex(k)
    ensures src <= LAST_FURNACE_SLOT ==> forall k :: Targets(r, k) <==> PLAYER_START <= k < SLOT_COUNT
  {
    if src <= LAST_FURNACE_SLOT then TO_PLAYER
    else if host.isFuel(stack) || host.emcHolder(stack) then TO_FUEL
    else if host.smeltable(stack) then TO_INPUT
    else Reject
  }

  /** Whether container slot `k` exists and holds something. */
  predicate HasStack(contents: seq<Stack>, k: int) {
    0 <= k < |contents| && !contents[k].IsEmpty()
  }

  /**
   The host's merge of the stack in `src`, as a function of the slot range
   it is asked to fill, must obey the merge contract for every range.
   */
  ghost predicate HostMergeSound(contents: seq<Stack>, src: int, merge: (int, int) -> MergeOutcome) {
    HasStack(contents, src) ==>
      forall start, end :: MergeObeys(contents, src, start, end, merge(start, end))
  }

  /** What happened to the source slot: left alone, cleared, or marked changed. */
  datatype SlotEvent = Untouched | PutEmpty | MarkedChanged

  /** The stack handed back to the host, the container's contents afterwards, and the source-slot event. */
  datatype TransferResult = TransferResult(returned: Stack, contents: seq<Stack>, event: SlotEvent)

  /**
   The quick move proper; `merge(start, end)` is what the host's merge of
   the source stack into slots [start, end) reports.
   */
  function TransferStackInSlot(host: Host, contents: seq<Stack>, src: int, merge: (int, int) -> MergeOutcome): (r: TransferResult)
    requires |contents| == SLOT_COUNT
    requires HostMergeSound(contents, src, merge)
    ensures |r.contents| == |contents|
    ensures r.event == Untouched <==> r.returned.IsEmpty()
    ensures r.event == Untouched ==> r.contents == contents
    ensures !r.returned.IsEmpty() ==> HasStack(contents, src) && r.returned == contents[src]
    ensures forall k :: 0 <= k < |contents| && k != src && r.contents[k] != contents[k] ==>
              Targets(RouteFor(host, src, contents[src]), k)
    ensures Total(r.contents) == Total(contents)
  {
    if !HasStack(contents, src) then
      TransferResult(EMPTY, contents, Untouched)
    else
      var stack := contents[src];
      var copy := Stack(stack.item, stack.count);
      var route := RouteFor(host, src, copy);
      match route
      case Reject =>
        TransferResult(EMPTY, contents, Untouched)
      case MergeInto(start, end) =>
        match merge(start, end)
        case MergeFailed =>
          TransferResult(EMPTY, contents, Untouched)
        case Merged(rest, after) =>
          if rest.IsEmpty() then
            TotalUpdate(after, src, EMPTY);
            TransferResult(copy, after[src := EMPTY], PutEmpty)
          else
            TotalUpdate(after, src, rest);
            TransferResult(copy, after[src := rest], MarkedChanged)
  }

  /** A missing or empty source slot hands back the empty stack and changes nothing. */
  lemma NoStackNoEffect(host: Host, contents: seq<Stack>, src: int, merge: (int, int) -> MergeOutcome)
    requires |contents| == SLOT_COUNT
    requires HostMergeSound(contents, src, merge)
    requires !HasStack(contents, src)
    ensures TransferStackInSlot(host, contents, src, merge) == TransferResult(EMPTY, contents, Untouched)
  {
  }

  /** A quick move hands back a non-empty stack exactly when the slot held one, a route was found and the merge succeeded. */
  lemma MovedIff(host: Host, contents: seq<Stack>, src: int, merge: (int, int) -> MergeOutcome)
    requires |contents| == SLOT_COUNT
    requires HostMergeSound(contents, src, merge)
    ensures !TransferStackInSlot(host, contents, src, merge).returned.IsEmpty() <==>
      && HasStack(contents, src)
      && var route := RouteFor(host, src, contents[src]);
      && route.MergeInto?
      && merge(route.start, route.end).Merged?
  {
  }

  /**
   From a furnace slot, only the player inventory and the source slot can
   change, and a failed merge leaves everything as it was.
   */
  lemma FurnaceSideGoesToPlayer(host: Host, contents: seq<Stack>, src: int, merge: (int, int) -> MergeOutcome)
    requires |contents| == SLOT_COUNT
    requires HostMergeSound(contents, src, merge)
    requires src <= LAST_FURNACE_SLOT
    ensures var r := TransferStackInSlot(host, contents, src, merge);
      && (forall k :: 0 <= k < PLAYER_START && k != src ==> r.contents[k] == contents[k])
      && (merge(PLAYER_START, SLOT_COUNT).MergeFailed? ==> r == TransferResult(EMPTY, contents, Untouched))
  {
  }

  /**
   From a player slot, fuel and EMC holders are routed to the fuel slot even
   when they are also smeltable, other smeltable stacks to the input slots,
   and everything else is refused without effect.
   */
  lemma PlayerSideRouting(host: Host, contents: seq<Stack>, src: int, merge: (int, int) -> MergeOutcome)
    requires |contents| == SLOT_COUNT
    requires HostMergeSound(contents, src, merge)
    requires LAST_FURNACE_SLOT < src && HasStack(contents, src)
    ensures var s := contents[src];
      && (host.isFuel(s) || host.emcHolder(s) ==> RouteFor(host, src, s) == TO_FUEL)
      && (!host.isFuel(s) && !host.emcHolder(s) && host.smeltable(s) ==> RouteFor(host, src, s) == TO_INPUT)
      && (!host.isFuel(s) && !host.emcHolder(s) && !host.smeltable(s) ==>
            TransferStackInSlot(host, contents, src, merge) == TransferResult(EMPTY, contents, Untouched))
  {
  }

  /** No quick move from the player side changes an output slot. */
  lemma PlayerSideNeverTouchesOutputs(host: Host, contents: seq<Stack>, src: int, merge: (int, int) -> MergeOutcome, k: int)
    requires |contents| == SLOT_COUNT
    requires HostMergeSound(contents, src, merge)
    requires LAST_FURNACE_SLOT < src && OutputSlotIndex(k)
    ensures TransferStackInSlot(host, contents, src, merge).contents[k] == contents[k]
  {
  }

  /**
   After a successful merge the source slot holds the remainder, or the
   shared empty stack if nothing remains, and the stack handed back is the
   one the slot held before the merge, never the remainder.
   */
  lemma SourceWriteBack(host: Host, contents: seq<Stack>, src: int, merge: (int, int) -> MergeOutcome, rest: Stack, after: seq<Stack>)
    requires |contents| == SLOT_COUNT
    requires HostMergeSound(contents, src, merge)
    requires HasStack(contents, src)
    requires var route := RouteFor(host, src, contents[src]);
      route.MergeInto? && merge(route.start, route.end) == Merged(rest, after)
    ensures var r := TransferStackInSlot(host, contents, src, merge);
      && (rest.IsEmpty() ==> r.contents[src] == EMPTY && r.event == PutEmpty)
      && (!rest.IsEmpty() ==> r.contents[src] == rest && r.event == MarkedChanged)
      && r.returned == contents[src]
      && r.returned != rest
  {
  }

  /**
   The fuel route targets exactly the fuel-handler slot and the input route
   exactly the input-handler slots; neither reaches an output-handler slot.
   */
  lemma RoutesMatchLayout(n: nat, m: nat, k: int)
    requires 0 <= k < PLAYER_START
    ensures Targets(TO_FUEL, k) <==> SlotAt(n, m, k).handler == Fuel
    ensures Targets(TO_INPUT, k) <==> SlotAt(n, m, k).handler == Input
    ensures !Targets(TO_PLAYER, k)
  {
  }

  /** Every slot a smeltable stack is routed to from the player side would accept it by hand. */
  lemma InputRouteAccepted(host: Host, n: nat, m: nat, src: int, stack: Stack, k: int)
    requires LAST_FURNACE_SLOT < src
    requires RouteFor(host, src, stack) == TO_INPUT && Targets(TO_INPUT, k)
    ensures Accepts(host, SlotAt(n, m, k), stack)
  {
  }
}
