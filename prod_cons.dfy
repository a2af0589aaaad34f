/**
 * The bounded buffer shared by n producers and m consumers, coordinated by the
 * counting semaphores empty and full and a binary semaphore mutex.  Each
 * method below is one producer or consumer iteration: the wait on empty (or
 * full) is its precondition, the mutex-protected region is its body, and the
 * post on full (or empty) closes it, so every method is one atomic step.
 */
module ProducerConsumer {
  import opened Wrappers
  import opened CircularSlots

  const BufferSize: nat := 10
  const NeutralValue: int := 0
  const ItemsToProduce: nat := 100
  const ItemsToConsume: nat := 100

  /** A value a producer generates: rand() % 99 + 1. */
  predicate IsItem(v: int) {
    1 <= v <= 99
  }

  /**
   * What slot j holds after p items were produced and c consumed: the
   * pending item it carries, or the neutral value if it carries none.
   */
  ghost function Expected(produced: seq<int>, c: nat, p: nat, j: int): int
  {
    match Held(BufferSize, produced, c, p, j)
    case Some(v) => v
    case None => NeutralValue
  }

  /** The slots show the items produced but not yet consumed, and the neutral value everywhere else. */
  ghost predicate SlotsHold(slots: seq<int>, produced: seq<int>, c: nat, p: nat)
  {
    |slots| == BufferSize && forall j :: 0 <= j < BufferSize ==> slots[j] == Expected(produced, c, p, j)
  }

  /** An insert at the write cursor p % BUFFER_SIZE: the new item takes that slot, the others keep theirs. */
  lemma SlotsAfterProduce(produced: seq<int>, c: nat, p: nat, x: int, before: seq<int>, after: seq<int>)
    requires c <= p < c + BufferSize && p == |produced|
    requires SlotsHold(before, produced, c, p)
    requires after == before[p % BufferSize := x]
    ensures SlotsHold(after, produced + [x], c, p + 1)
  {
    forall j | 0 <= j < BufferSize
      ensures after[j] == Expected(produced + [x], c, p + 1, j)
    {
      HeldAfterInsert(BufferSize, produced, c, p, x, j);
    }
  }

  /**
   * A removal at the read cursor c % BUFFER_SIZE: that slot held the oldest
   * unconsumed item; it turns neutral and the others keep their items.
   */
  lemma SlotsAfterConsume(produced: seq<int>, c: nat, p: nat, before: seq<int>, after: seq<int>)
    requires c < p <= c + BufferSize && p <= |produced|
    requires SlotsHold(before, produced, c, p)
    requires after == before[c % BufferSize := NeutralValue]
    ensures before[c % BufferSize] == produced[c]
    ensures SlotsHold(after, produced, c + 1, p)
  {
    HeldAtReadCursor(BufferSize, produced, c, p);
    forall j | 0 <= j < BufferSize
      ensures after[j] == Expected(produced, c + 1, p, j)
    {
      HeldAfterRemove(BufferSize, produced, c, p, j);
    }
  }

  class SharedData {
    var buffer: array<int>
    /** The write cursor (the program's in). */
    var inPos: nat
    /** The read cursor (the program's out). */
    var outPos: nat
    var producedItems: nat
    var consumedItems: nat
    /** The counts of the semaphores empty and full. */
    var empty: nat
    var full: nat

    /** Every value ever written, and every value ever taken, in order. */
    ghost var produced: seq<int>
    ghost var consumed: seq<int>

    /** Number of items currently held in the buffer. */
    ghost function Occupancy(): int
      reads this
    {
      producedItems - consumedItems
    }

    ghost predicate Valid()
      reads this, buffer
    {
      && buffer.Length == BufferSize
      && producedItems == |produced|
      && consumedItems == |consumed|
      && consumedItems <= producedItems <= ItemsToProduce
      && consumedItems <= ItemsToConsume
      && Occupancy() <= BufferSize
      && inPos == producedItems % BufferSize
      && outPos == consumedItems % BufferSize
      // first in, first out: what was taken is a prefix of what was put in
      && consumed == produced[..consumedItems]
      && (forall k :: 0 <= k < |produced| ==> IsItem(produced[k]))
      && SlotsHold(buffer[..], produced, consumedItems, producedItems)
      // the semaphore counts
      && empty + full == BufferSize
      && Occupancy() <= full
      && (producedItems < ItemsToProduce ==> full == Occupancy())
    }

    /** init_shared: all slots neutral, cursors and counters zero, empty = BUFFER_SIZE, full = 0. */
    constructor ()
      ensures Valid() && fresh(buffer)
      ensures forall j :: 0 <= j < BufferSize ==> buffer[j] == NeutralValue
      ensures inPos == 0 && outPos == 0 && producedItems == 0 && consumedItems == 0
      ensures empty == BufferSize && full == 0
      ensures produced == [] && consumed == []
    {
      var slots := new int[BufferSize];
      for i := 0 to BufferSize
        invariant forall j :: 0 <= j < i ==> slots[j] == NeutralValue
      {
        slots[i] := NeutralValue;
      }
      buffer := slots;
      inPos, outPos := 0, 0;
      producedItems, consumedItems := 0, 0;
      empty, full := BufferSize, 0;
      produced, consumed := [], [];
    }

    /**
     * One producer iteration: down(empty), then under the mutex write data at
     * in unless the target was already reached by another producer, then up(full).
     */
    method Produce(data: int)
      requires Valid() && empty > 0 && IsItem(data)
      modifies this, buffer
      ensures Valid() && buffer == old(buffer)
      ensures empty == old(empty) - 1 && full == old(full) + 1
      ensures old(producedItems) < ItemsToProduce ==>
        && buffer[..] == old(buffer[..])[old(inPos) := data]
        && inPos == (old(inPos) + 1) % BufferSize
        && producedItems == old(producedItems) + 1
        && produced == old(produced) + [data]
      ensures old(producedItems) >= ItemsToProduce ==>
        && buffer[..] == old(buffer[..])
        && inPos == old(inPos)
        && producedItems == old(producedItems)
        && produced == old(produced)
      ensures outPos == old(outPos) && consumedItems == old(consumedItems) && consumed == old(consumed)
    {
      empty := empty - 1;
      if producedItems < ItemsToProduce {
        ghost var (p, c, before, slots) := (producedItems, consumedItems, produced, buffer[..]);
        CursorStep(BufferSize, producedItems);
        buffer[inPos] := data;
        SlotsAfterProduce(before, c, p, data, slots, buffer[..]);
        inPos, producedItems, produced := (inPos + 1) % BufferSize, producedItems + 1, produced + [data];
      }
      full := full + 1;
    }

    /**
     * One consumer iteration: down(full), then under the mutex take the item at
     * out and put the neutral value in its place unless every item was already
     * consumed, then up(empty).
     */
    method Consume() returns (item: Option<int>)
      requires Valid() && full > 0
      modifies this, buffer
      ensures Valid() && buffer == old(buffer)
      ensures full == old(full) - 1 && empty == old(empty) + 1
      ensures old(consumedItems) < ItemsToConsume ==>
        && consumedItems == old(consumedItems) + 1
        && item == Some(old(buffer[outPos]))
        && item == Some(produced[old(consumedItems)])
        && IsItem(item.value)
        && buffer[..] == old(buffer[..])[old(outPos) := NeutralValue]
        && outPos == (old(outPos) + 1) % BufferSize
        && consumed == old(consumed) + [item.value]
      ensures old(consumedItems) >= ItemsToConsume ==>
        && item == None
        && buffer[..] == old(buffer[..])
        && outPos == old(outPos)
        && consumedItems == old(consumedItems)
        && consumed == old(consumed)
      ensures inPos == old(inPos) && producedItems == old(producedItems) && produced == old(produced)
    {
      if consumedItems < ItemsToConsume {
        assert Occupancy() >= 1;
        ghost var (p, c, slots) := (producedItems, consumedItems, buffer[..]);
        CursorStep(BufferSize, consumedItems);
        var x := buffer[outPos];
        buffer[outPos] := NeutralValue;
        SlotsAfterConsume(produced, c, p, slots, buffer[..]);
        assert consumed + [x] == produced[..c + 1];
        outPos, consumedItems, consumed := (outPos + 1) % BufferSize, consumedItems + 1, consumed + [x];
        full, empty := full - 1, empty + 1;
        item := Some(x);
      } else {
        full, empty := full - 1, empty + 1;
        item := None;
      }
    }
  }

  /**
   * Once all 100 items are produced and consumed the buffer is as init_shared
   * left it: every slot neutral and both cursors back at slot 0.
   */
  lemma DrainedBufferIsNeutral(sh: SharedData)
    requires sh.Valid()
    requires sh.producedItems == ItemsToProduce && sh.consumedItems == ItemsToConsume
    ensures sh.inPos == 0 && sh.outPos == 0
    ensures forall j :: 0 <= j < BufferSize ==> sh.buffer[j] == NeutralValue
    ensures sh.consumed == sh.produced
    ensures sh.empty + sh.full == BufferSize
  {
  }

  /** The neutral value marks exactly the free slots, since no producer ever writes it. */
  lemma NeutralMarksFreeSlots(sh: SharedData)
    requires sh.Valid()
    ensures forall j :: 0 <= j < BufferSize ==>
      (sh.buffer[j] == NeutralValue <==> Held(BufferSize, sh.produced, sh.consumedItems, sh.producedItems, j).None?)
  {
    forall j | 0 <= j < BufferSize
      ensures sh.buffer[j] == NeutralValue <==> Held(BufferSize, sh.produced, sh.consumedItems, sh.producedItems, j).None?
    {
      var k := Dist(BufferSize, sh.outPos, j);
      if 0 <= k < sh.producedItems - sh.consumedItems {
        assert IsItem(sh.produced[sh.consumedItems + k]);
      }
    }
  }

  /** The cursors never leave the array, and no guard lets the producers overshoot the target. */
  lemma CursorsInRange(sh: SharedData)
    requires sh.Valid()
    ensures 0 <= sh.inPos < BufferSize && 0 <= sh.outPos < BufferSize
    ensures 0 <= sh.producedItems - sh.consumedItems <= BufferSize
    ensures sh.producedItems <= ItemsToProduce
  {
  }
}
