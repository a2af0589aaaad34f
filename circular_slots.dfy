/**
 * The arithmetic of a circular buffer of cap slots with a write cursor and a
 * read cursor advanced mod cap, shared by the bounded buffer and both relay
 * buffers.  After p items were put in and c taken out, the cursors are
 * p mod cap and c mod cap, and the slots from the read cursor onwards hold
 * the p - c pending items in order.
 */
module CircularSlots {
  import opened Wrappers

  /** How far slot b lies after slot a, going round a circle of cap slots. */
  function Dist(cap: nat, a: int, b: int): int
  {
    if b >= a then b - a else b - a + cap
  }

  lemma MulAtLeast(d: int, cap: nat)
    requires d >= 1
    ensures d * cap >= cap
  {
  }

  /** Quotient and remainder are determined by n = q * cap + r with 0 <= r < cap. */
  lemma DivModUnique(n: int, cap: nat, q: int, r: int)
    requires cap > 0 && 0 <= r < cap && n == q * cap + r
    ensures n / cap == q && n % cap == r
  {
    var q', r' := n / cap, n % cap;
    assert (q - q') * cap == r' - r;
    if q > q' {
      MulAtLeast(q - q', cap);
    } else if q < q' {
      MulAtLeast(q' - q, cap);
    }
  }

  /** Advancing a cursor by (cursor + 1) % cap keeps it equal to its counter mod cap. */
  lemma CursorStep(cap: nat, n: nat)
    requires cap > 0
    ensures (n % cap + 1) % cap == (n + 1) % cap
  {
    var q, r := n / cap, n % cap;
    if r + 1 < cap {
      DivModUnique(n + 1, cap, q, r + 1);
      DivModUnique(r + 1, cap, 0, r + 1);
    } else {
      DivModUnique(n + 1, cap, q + 1, 0);
      DivModUnique(r + 1, cap, 1, 0);
    }
  }

  /** The distance from the read cursor to the write cursor is the occupancy, unless the buffer is full. */
  lemma CursorGap(cap: nat, p: nat, c: nat)
    requires cap > 0 && c <= p < c + cap
    ensures Dist(cap, c % cap, p % cap) == p - c
  {
    var q, r := c / cap, c % cap;
    if r + (p - c) < cap {
      DivModUnique(p, cap, q, r + (p - c));
    } else {
      DivModUnique(p, cap, q + 1, r + (p - c) - cap);
    }
  }

  /** The pending item slot j carries after p items in and c out, if any. */
  function Held<T>(cap: nat, items: seq<T>, c: nat, p: nat, j: int): Option<T>
  {
    var k := Dist(cap, if cap > 0 then c % cap else 0, j);
    if 0 <= k < p - c && c + k < |items| then Some(items[c + k]) else None
  }

  /** The read cursor's slot carries the oldest pending item. */
  lemma HeldAtReadCursor<T>(cap: nat, items: seq<T>, c: nat, p: nat)
    requires cap > 0 && c < p <= |items|
    ensures Held(cap, items, c, p, c % cap) == Some(items[c])
  {
  }

  /** Putting item x in fills slot p mod cap and leaves every other slot as it was. */
  lemma HeldAfterInsert<T>(cap: nat, items: seq<T>, c: nat, p: nat, x: T, j: int)
    requires cap > 0 && c <= p < c + cap && p == |items| && 0 <= j < cap
    ensures Held(cap, items + [x], c, p + 1, j) == if j == p % cap then Some(x) else Held(cap, items, c, p, j)
  {
    CursorGap(cap, p, c);
  }

  /** Taking the oldest item out frees slot c mod cap and leaves every other slot as it was. */
  lemma HeldAfterRemove<T>(cap: nat, items: seq<T>, c: nat, p: nat, j: int)
    requires cap > 0 && c < p <= c + cap && p <= |items| && 0 <= j < cap
    ensures Held(cap, items, c + 1, p, j) == if j == c % cap then None else Held(cap, items, c, p, j)
  {
    var o := c % cap;
    CursorStep(cap, c);
    if o + 1 < cap {
      DivModUnique(o + 1, cap, 0, o + 1);
      assert (c + 1) % cap == o + 1;
    } else {
      DivModUnique(o + 1, cap, 1, 0);
      assert (c + 1) % cap == 0;
    }
  }

  /** The cap slots carry every pending item where Held places it; free slots are unconstrained. */
  ghost predicate Shows<T>(cap: nat, slots: seq<T>, items: seq<T>, c: nat, p: nat)
  {
    |slots| == cap && forall j :: 0 <= j < cap && Held(cap, items, c, p, j).Some? ==> slots[j] == Held(cap, items, c, p, j).value
  }

  /** Writing x into the write cursor's slot keeps every pending item where it is and shows x. */
  lemma ShowsAfterInsert<T>(cap: nat, slots: seq<T>, items: seq<T>, c: nat, p: nat, x: T)
    requires cap > 0 && c <= p < c + cap && p == |items|
    requires Shows(cap, slots, items, c, p)
    ensures Shows(cap, slots[p % cap := x], items + [x], c, p + 1)
  {
    var after := slots[p % cap := x];
    forall j | 0 <= j < cap && Held(cap, items + [x], c, p + 1, j).Some?
      ensures after[j] == Held(cap, items + [x], c, p + 1, j).value
    {
      HeldAfterInsert(cap, items, c, p, x, j);
    }
  }

  /** The read cursor's slot carries the oldest pending item c, and once it is taken the rest stay shown. */
  lemma ShowsAfterRemove<T>(cap: nat, slots: seq<T>, items: seq<T>, c: nat, p: nat)
    requires cap > 0 && c < p <= c + cap && p <= |items|
    requires Shows(cap, slots, items, c, p)
    ensures slots[c % cap] == items[c]
    ensures Shows(cap, slots, items, c + 1, p)
  {
    HeldAtReadCursor(cap, items, c, p);
    forall j | 0 <= j < cap && Held(cap, items, c + 1, p, j).Some?
      ensures slots[j] == Held(cap, items, c + 1, p, j).value
    {
      HeldAfterRemove(cap, items, c, p, j);
    }
  }
}
