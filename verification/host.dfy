/**
 What the furnace container takes from its host runtime without seeing
 inside: the classification of a stack (furnace fuel, EMC holder, smelting
 result) and the container's generic stack-merge routine.
 */
module Host {
  import opened Stacks

  /**
   The host's answers about a stack, as uninterpreted predicates:
   - `isFuel`: the vanilla furnace's fuel test;
   - `emcHolder`: the stack exposes the EMC-holder item capability;
   - `smeltable`: the furnace tile's smelting result for the stack is non-empty;
   - `fuelSlotFilter`: the insertion predicate installed on the fuel slot.
   */
  datatype Host = Host(
    isFuel: Stack -> bool,
    emcHolder: Stack -> bool,
    smeltable: Stack -> bool,
    fuelSlotFilter: Stack -> bool)

  /** Whether container slot `k` lies in the half-open range [start, end). */
  predicate InRange(k: int, start: int, end: int) {
    start <= k < end
  }

  /**
   What the host's merge of the stack in slot `src` into the slots
   [start, end) reported. `Merged` carries the source stack as the merge
   left it (its remainder) and the contents of every container slot
   afterwards, the source slot still showing its pre-merge stack: the
   container, not the merge, writes the source slot back.
   */
  datatype MergeOutcome =
    | MergeFailed
    | Merged(remainder: Stack, contents: seq<Stack>)

  /**
   The contract the container relies on: a failed merge moved nothing; a
   successful one moved at least one item of the source stack, wrote only
   slots inside [start, end), and neither created nor destroyed items.
   */
  predicate MergeObeys(before: seq<Stack>, src: int, start: int, end: int, m: MergeOutcome)
    requires 0 <= src < |before|
  {
    match m
    case MergeFailed => true
    case Merged(rest, after) =>
      && |after| == |before|
      && after[src] == before[src]
      && rest.count < before[src].count
      && (!rest.IsEmpty() ==> rest.item == before[src].item)
      && (forall k :: 0 <= k < |before| && !InRange(k, start, end) ==> after[k] == before[k])
      && Total(after) == Total(before) + (before[src].count - rest.count)
  }
}
