/** The bounded single-producer single-consumer ring (include/mdfh/spsc_queue.hpp) as the class one
    thread sees. `SpscRings` models it under two threads. */
module SpscQueues {
  import opened Protocol

  // ---- Masks ----

  predicate PowerOfTwo(n: nat) {
    n == 1 || (n > 1 && n % 2 == 0 && PowerOfTwo(n / 2))
  }

  /** The bitwise and of two unsigned numbers. */
  function BitAnd(a: nat, b: nat): nat {
    if a == 0 || b == 0 then 0
    else (if a % 2 == 1 && b % 2 == 1 then 1 else 0) + 2 * BitAnd(a / 2, b / 2)
  }

  /** The slot of the position `i`, counted from the first push, in a ring of `cap` slots. */
  function Slot(i: nat, cap: nat): (s: nat)
    requires cap > 0
    ensures s < cap
  {
    if i < cap then i else Slot(i - cap, cap)
  }

  lemma {:induction false} SlotHalves(x: nat, n: nat)
    requires n > 1 && n % 2 == 0
    ensures Slot(x, n) == x % 2 + 2 * Slot(x / 2, n / 2)
  {
    if x >= n {
      SlotHalves(x - n, n);
      assert (x - n) / 2 == x / 2 - n / 2;
    }
  }

  /** Masking with a power of two less one wraps a position into the ring. */
  lemma {:induction false} MaskWraps(x: nat, n: nat)
    requires PowerOfTwo(n)
    ensures BitAnd(x, n - 1) == Slot(x, n)
  {
    if n > 1 {
      MaskWraps(x / 2, n / 2);
      SlotHalves(x, n);
      assert (n - 1) / 2 == n / 2 - 1;
    } else {
      SlotOfOne(x);
    }
  }

  lemma {:induction false} SlotOfOne(x: nat)
    ensures Slot(x, 1) == 0
  {
    if x >= 1 { SlotOfOne(x - 1); }
  }

  /** Two positions less than a lap apart share a slot only if they are the same. */
  lemma {:induction false} SlotsDiffer(i: nat, j: nat, cap: nat)
    requires cap > 0 && i <= j < i + cap
    ensures Slot(i, cap) == Slot(j, cap) <==> i == j
  {
    if i >= cap {
      SlotsDiffer(i - cap, j - cap, cap);
    } else if j >= cap {
      assert Slot(j, cap) == j - cap;
    }
  }

  lemma {:induction false} NextSlot(i: nat, cap: nat)
    requires cap > 0
    ensures Slot(Slot(i, cap) + 1, cap) == Slot(i + 1, cap)
  {
    if i >= cap {
      NextSlot(i - cap, cap);
    }
  }

  lemma {:induction false} PowersDouble(p: nat, q: nat)
    requires PowerOfTwo(p) && PowerOfTwo(q) && p < q
    ensures 2 * p <= q
  {
    if p > 1 {
      PowersDouble(p / 2, q / 2);
    }
  }

  /** `round_up_pow2`: the least power of two that is at least `v`, when that fits the word. */
  method RoundUpPow2(v: nat) returns (p: nat)
    requires v <= TWO63
    ensures PowerOfTwo(p) && v <= p < TWO64
    ensures forall q :: PowerOfTwo(q) && v <= q ==> p <= q
  {
    p := 1;
    while p < v
      invariant PowerOfTwo(p) && (p == 1 || p < 2 * v)
      invariant forall q :: PowerOfTwo(q) && v <= q ==> p <= q
      decreases v - p
    {
      forall q | PowerOfTwo(q) && v <= q ensures 2 * p <= q { PowersDouble(p, q); }
      assert (2 * p) / 2 == p;
      p := 2 * p;
    }
  }

  // ---- The class, used from one thread at a time ----

  /** The slot of the item `i` places behind the one in slot `tail`. */
  function Place(tail: nat, i: nat, cap: nat): (s: nat)
    requires cap > 0
    ensures s < cap
  {
    Slot(tail + i, cap)
  }

  class SPSCQueue<T(0)> {
    const mask: nat
    const buffer: array<T>
    var head: nat
    var tail: nat
    ghost var contents: seq<T>

    ghost predicate Valid()
      reads this, buffer
    {
      var cap := buffer.Length;
      && PowerOfTwo(cap) && cap >= 2 && mask == cap - 1
      && tail < cap && |contents| < cap && head == Place(tail, |contents|, cap)
      && forall i :: 0 <= i < |contents| ==> buffer[Place(tail, i, cap)] == contents[i]
    }

    constructor (capacity: nat)
      requires capacity <= TWO63
      ensures Valid() && contents == [] && fresh(buffer)
      ensures capacity <= buffer.Length && forall q: nat :: PowerOfTwo(q) && q >= capacity && q >= 2 ==> buffer.Length <= q
    {
      var cap := RoundUpPow2(if capacity < 2 then 2 else capacity);
      mask := cap - 1;
      buffer := new T[cap];
      head, tail, contents := 0, 0, [];
    }

    /** Appends the item unless all but one slot are taken. */
    method TryPush(item: T) returns (ok: bool)
      requires Valid()
      modifies this`head, this`contents, buffer
      ensures Valid() && ok == (|old(contents)| < buffer.Length - 1)
      ensures contents == if ok then old(contents) + [item] else old(contents)
    {
      hide PowerOfTwo, Slot, BitAnd;
      var cap := buffer.Length;
      MaskWraps(head + 1, cap);
      NextSlot(tail + |contents|, cap);
      SlotOfTail(tail, |contents| + 1, cap);
      var next := BitAnd(head + 1, mask);
      if next == tail { return false; }
      forall i: nat | i < |contents| ensures Place(tail, i, cap) != head {
        SlotsDiffer(tail + i, tail + |contents|, cap);
      }
      buffer[head] := item;
      head := next;
      contents := contents + [item];
      ok := true;
    }

    /** Removes and returns the oldest item, if any. */
    method TryPop() returns (out: Option<T>)
      requires Valid()
      modifies this`tail, this`contents
      ensures Valid()
      ensures out == if old(contents) == [] then None else Some(old(contents)[0])
      ensures contents == if old(contents) == [] then [] else old(contents)[1..]
    {
      hide PowerOfTwo, Slot, BitAnd;
      var cap := buffer.Length;
      MaskWraps(tail + 1, cap);
      SlotOfTail(tail, |contents|, cap);
      SlotOfTail(tail, 0, cap);
      if tail == head { return None; }
      out := Some(buffer[tail]);
      var next := BitAnd(tail + 1, mask);
      forall i: nat ensures Place(next, i, cap) == Place(tail, i + 1, cap) { WrapFirst(tail + 1, i, cap); }
      tail := next;
      contents := contents[1..];
    }

    method Empty() returns (r: bool)
      requires Valid()
      ensures r <==> contents == []
    {
      hide PowerOfTwo;
      SlotOfTail(tail, |contents|, buffer.Length);
      r := head == tail;
    }
  }

  lemma SlotOfTail(tail: nat, n: nat, cap: nat)
    requires tail < cap && n <= cap
    ensures Slot(tail + n, cap) == tail <==> n == 0 || n == cap
  {
    if tail + n >= cap {
      assert Slot(tail + n, cap) == Slot(tail + n - cap, cap);
    }
  }

  lemma {:induction false} WrapFirst(i: nat, n: nat, cap: nat)
    requires cap > 0
    ensures Slot(Slot(i, cap) + n, cap) == Slot(i + n, cap)
  {
    if i >= cap {
      WrapFirst(i - cap, n, cap);
    }
  }
}
