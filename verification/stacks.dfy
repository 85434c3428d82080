/**
 Item stacks as the furnace container sees them: an item and a count.
 The host's stacks carry more (metadata, capabilities); the container only
 ever asks whether a stack is empty, copies it, and hands it to host code.
 */
module Stacks {

  /** An item type, left abstract: only its identity matters here. */
  datatype Item = Item(id: nat)

  /** A stack of `count` items of one kind; a count of zero is the empty stack. */
  datatype Stack = Stack(item: Item, count: nat) {
    predicate IsEmpty() {
      count == 0
    }
  }

  /** The host's shared empty stack. */
  const EMPTY: Stack := Stack(Item(0), 0)

  /** The number of items held by a sequence of slots; no single slot holds more. */
  function Total(slots: seq<Stack>): (t: nat)
    ensures forall i :: 0 <= i < |slots| ==> slots[i].count <= t
  {
    if |slots| == 0 then 0 else slots[0].count + Total(slots[1..])
  }

  /** Replacing one slot's stack changes the total by exactly the difference of counts. */
  lemma {:induction false} TotalUpdate(slots: seq<Stack>, i: int, s: Stack)
    requires 0 <= i < |slots|
    ensures Total(slots[i := s]) + slots[i].count == Total(slots) + s.count
    decreases |slots|
  {
    if i > 0 {
      assert slots[i := s][1..] == slots[1..][i - 1 := s];
      TotalUpdate(slots[1..], i - 1, s);
    } else {
      assert slots[i := s][1..] == slots[1..];
    }
  }
}
