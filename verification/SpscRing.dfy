/** The ring of include/mdfh/spsc_queue.hpp under two threads, as a step system.

    Each atomic index is the list of all values stored to it so far. An acquire load returns any of
    them that is not older than the last one the loading thread has read; a thread's load of its own
    index returns its own last store. Slots are plain memory. `SlotsApart` shows that neither thread
    touches a slot the other may still use, and that what it touches was published to it. */
module SpscRings {
  import opened Protocol
  import opened SpscQueues

  /** Where the producer stands inside `try_push`. */
  datatype Producer<T> =
    | Idle
    | Called(item: T)
    | HaveHead(item: T, head: nat)
    | HaveRoom(item: T, head: nat)
    | Filled(item: T, head: nat)
    | Answer(ok: bool)

  /** Where the consumer stands inside `try_pop`. */
  datatype Consumer<T> =
    | Resting
    | Asked
    | HaveTail(tail: nat)
    | HaveItem(tail: nat)
    | Taken(tail: nat, out: T)
    | Reply(got: Option<T>)

  /** `headSeen` and `tailSeen` say how far each thread has read the other's history. `pushed` and
      `popped` record what the two sides have published and released. */
  datatype Ring<T> = Ring(buffer: seq<T>, heads: seq<nat>, tails: seq<nat>, headSeen: nat, tailSeen: nat,
                          producer: Producer<T>, consumer: Consumer<T>, pushed: seq<T>, popped: seq<T>)

  function NewRing<T>(cap: nat, blank: T): Ring<T> {
    Ring(seq(cap, _ => blank), [0], [0], 0, 0, Idle, Resting, [], [])
  }

  /** The items published and not yet released. */
  function Queued<T>(r: Ring<T>): seq<T>
    requires |r.popped| <= |r.pushed|
  {
    r.pushed[|r.popped|..]
  }

  /** The values of an atomic index that a thread which has read up to `seen` may still load. */
  predicate Loadable(history: seq<nat>, seen: nat, k: nat) {
    seen <= k < |history|
  }

  predicate CanProduce<T>(r: Ring<T>, k: nat) {
    |r.buffer| > 0 && |r.heads| > 0 &&
    match r.producer
    case Idle => false
    case Called(_) => true
    case HaveHead(_, _) => Loadable(r.tails, r.tailSeen, k)
    case HaveRoom(_, h) => h < |r.buffer|
    case Filled(_, _) => true
    case Answer(_) => false
  }

  /** The next step inside `try_push`; `k` picks the value an acquire load returns. */
  function Produce<T>(r: Ring<T>, k: nat): Ring<T>
    requires CanProduce(r, k)
  {
    var mask := |r.buffer| - 1;
    match r.producer
    case Called(x) => r.(producer := HaveHead(x, r.heads[|r.heads| - 1]))
    case HaveHead(x, h) =>
      r.(tailSeen := k, producer := if BitAnd(h + 1, mask) == r.tails[k] then Answer(false) else HaveRoom(x, h))
    case HaveRoom(x, h) => r.(buffer := r.buffer[h := x], producer := Filled(x, h))
    case Filled(x, h) => r.(heads := r.heads + [BitAnd(h + 1, mask)], producer := Answer(true), pushed := r.pushed + [x])
  }

  predicate CanConsume<T>(r: Ring<T>, k: nat) {
    |r.buffer| > 0 && |r.tails| > 0 &&
    match r.consumer
    case Resting => false
    case Asked => true
    case HaveTail(_) => Loadable(r.heads, r.headSeen, k)
    case HaveItem(t) => t < |r.buffer|
    case Taken(_, _) => true
    case Reply(_) => false
  }

  /** The next step inside `try_pop`. */
  function Consume<T>(r: Ring<T>, k: nat): Ring<T>
    requires CanConsume(r, k)
  {
    match r.consumer
    case Asked => r.(consumer := HaveTail(r.tails[|r.tails| - 1]))
    case HaveTail(t) => r.(headSeen := k, consumer := if t == r.heads[k] then Reply(None) else HaveItem(t))
    case HaveItem(t) => r.(consumer := Taken(t, r.buffer[t]))
    case Taken(t, out) =>
      r.(tails := r.tails + [BitAnd(t + 1, |r.buffer| - 1)], consumer := Reply(Some(out)), popped := r.popped + [out])
  }

  /** `empty()`, called by the consumer: it loads the producer's index and its own. */
  function SeeEmpty<T>(r: Ring<T>, k: nat): (Ring<T>, bool)
    requires Loadable(r.heads, r.headSeen, k) && |r.tails| > 0
  {
    (r.(headSeen := k), r.heads[k] == r.tails[|r.tails| - 1])
  }

  // ---- The invariant ----

  ghost predicate Wraps(history: seq<nat>, n: nat, cap: nat)
    requires cap > 0
  {
    |history| == n + 1 && forall i :: 0 <= i <= n ==> history[i] == Slot(i, cap)
  }

  ghost predicate Holds<T>(buffer: seq<T>, pushed: seq<T>, from: nat)
    requires |buffer| > 0
  {
    forall k :: from <= k < |pushed| ==> buffer[Slot(k, |buffer|)] == pushed[k]
  }

  ghost predicate ProducerOk<T>(r: Ring<T>)
    requires |r.buffer| > 0
  {
    var (h, room) := (Slot(|r.pushed|, |r.buffer|), |r.pushed| < r.tailSeen + |r.buffer| - 1);
    match r.producer
    case HaveHead(_, head) => head == h
    case HaveRoom(_, head) => head == h && room
    case Filled(x, head) => head == h && room && r.buffer[h] == x
    case _ => true
  }

  ghost predicate ConsumerOk<T>(r: Ring<T>)
    requires |r.buffer| > 0
  {
    var (t, some) := (Slot(|r.popped|, |r.buffer|), |r.popped| < r.headSeen);
    match r.consumer
    case HaveTail(tail) => tail == t
    case HaveItem(tail) => tail == t && some
    case Taken(tail, out) => tail == t && some && r.headSeen <= |r.pushed| && out == r.pushed[|r.popped|]
    case Reply(Some(out)) => r.popped != [] && out == r.popped[|r.popped| - 1]
    case _ => true
  }

  ghost predicate RingOk<T>(r: Ring<T>) {
    var (cap, pushed, popped) := (|r.buffer|, |r.pushed|, |r.popped|);
    && PowerOfTwo(cap) && cap >= 2
    && Wraps(r.heads, pushed, cap) && Wraps(r.tails, popped, cap)
    && r.tailSeen <= popped <= r.headSeen <= pushed < r.tailSeen + cap
    && r.popped == r.pushed[..popped]
    && Holds(r.buffer, r.pushed, popped)
    && ProducerOk(r) && ConsumerOk(r)
  }

  lemma NewRingOk<T>(cap: nat, blank: T)
    requires PowerOfTwo(cap) && cap >= 2
    ensures RingOk(NewRing(cap, blank))
  {
  }

  /** The masked index a thread stores is the slot of the next position. */
  lemma NextIndex(n: nat, cap: nat)
    requires PowerOfTwo(cap)
    ensures BitAnd(Slot(n, cap) + 1, cap - 1) == Slot(n + 1, cap)
  {
    MaskWraps(Slot(n, cap) + 1, cap);
    NextSlot(n, cap);
  }

  /** A push fails exactly when the ring was full at the tail value it read. */
  lemma PushFailsIffFull<T>(r: Ring<T>, k: nat)
    requires RingOk(r) && r.producer.HaveHead? && Loadable(r.tails, r.tailSeen, k)
    ensures CanProduce(r, k)
    ensures Produce(r, k).producer == Answer(false) <==> |r.pushed| - k == |r.buffer| - 1
    ensures |r.pushed| - k <= |r.buffer| - 1
  {
    hide PowerOfTwo, BitAnd, Slot, Holds;
    var cap := |r.buffer|;
    NextIndex(|r.pushed|, cap);
    Lap(k, cap);
    if |r.pushed| + 1 < k + cap {
      SlotsDiffer(k, |r.pushed| + 1, cap);
    }
  }

  lemma Lap(k: nat, cap: nat)
    requires cap > 0
    ensures Slot(k + cap, cap) == Slot(k, cap)
  {
  }

  /** A pop fails exactly when the ring was empty at the head value it read. */
  lemma PopFailsIffEmpty<T>(r: Ring<T>, k: nat)
    requires RingOk(r) && r.consumer.HaveTail? && Loadable(r.heads, r.headSeen, k)
    ensures CanConsume(r, k)
    ensures Consume(r, k).consumer == Reply(None) <==> k == |r.popped|
  {
    hide PowerOfTwo, BitAnd, Slot, Holds;
    SlotsDiffer(|r.popped|, k, |r.buffer|);
  }

  /** `empty()` is true exactly when the ring was empty at the head value it read. */
  lemma SeesEmpty<T>(r: Ring<T>, k: nat)
    requires RingOk(r) && Loadable(r.heads, r.headSeen, k)
    ensures RingOk(SeeEmpty(r, k).0)
    ensures SeeEmpty(r, k).1 <==> k == |r.popped|
  {
    hide PowerOfTwo, BitAnd, Slot, Holds;
    SlotsDiffer(|r.popped|, k, |r.buffer|);
  }

  /** The slot of the next push is none of those the consumer may still read. */
  lemma FreeSlot(popped: nat, pushed: nat, cap: nat)
    requires cap > 0 && popped <= pushed < popped + cap - 1
    ensures forall k :: popped <= k < pushed ==> Slot(k, cap) != Slot(pushed, cap)
  {
    forall k | popped <= k < pushed ensures Slot(k, cap) != Slot(pushed, cap) {
      SlotsDiffer(k, pushed, cap);
    }
  }

  lemma WriteKeepsOk<T>(r: Ring<T>, k: nat)
    requires RingOk(r) && CanProduce(r, k) && r.producer.HaveRoom?
    ensures RingOk(Produce(r, k))
  {
    hide PowerOfTwo, BitAnd, Slot, Wraps;
    FreeSlot(|r.popped|, |r.pushed|, |r.buffer|);
  }

  lemma PublishKeepsOk<T>(r: Ring<T>, k: nat)
    requires RingOk(r) && CanProduce(r, k) && r.producer.Filled?
    ensures RingOk(Produce(r, k))
  {
    hide PowerOfTwo, BitAnd, Slot;
    NextIndex(|r.pushed|, |r.buffer|);
    var s := Produce(r, k);
    assert Wraps(s.heads, |s.pushed|, |r.buffer|);
    assert Holds(s.buffer, s.pushed, |r.popped|);
    hide Wraps, Holds;
  }

  lemma ProduceKeepsOk<T>(r: Ring<T>, k: nat)
    requires RingOk(r) && CanProduce(r, k)
    ensures RingOk(Produce(r, k))
  {
    hide PowerOfTwo, BitAnd, Slot, Holds;
    match r.producer
    case HaveHead(_, _) => PushFailsIffFull(r, k);
    case HaveRoom(_, _) => WriteKeepsOk(r, k);
    case Filled(_, _) => PublishKeepsOk(r, k);
    case _ =>
  }

  lemma ReleaseKeepsOk<T>(r: Ring<T>, k: nat)
    requires RingOk(r) && CanConsume(r, k) && r.consumer.Taken?
    ensures RingOk(Consume(r, k))
  {
    hide PowerOfTwo, BitAnd, Slot;
    NextIndex(|r.popped|, |r.buffer|);
    var s := Consume(r, k);
    assert Wraps(s.tails, |s.popped|, |r.buffer|);
    assert Holds(s.buffer, s.pushed, |s.popped|);
    hide Wraps, Holds;
  }

  lemma ConsumeKeepsOk<T>(r: Ring<T>, k: nat)
    requires RingOk(r) && CanConsume(r, k)
    ensures RingOk(Consume(r, k))
  {
    hide PowerOfTwo, BitAnd, Slot;
    match r.consumer
    case HaveTail(_) => PopFailsIffEmpty(r, k);
    case Taken(_, _) => ReleaseKeepsOk(r, k);
    case _ =>
  }

  // ---- What the invariant says ----

  /** First in, first out: what was popped, followed by what is in the ring, is what was pushed, and
      the ring never holds more than all but one of its slots. */
  lemma FirstInFirstOut<T>(r: Ring<T>)
    requires RingOk(r)
    ensures |r.popped| <= |r.pushed| && r.popped + Queued(r) == r.pushed && |Queued(r)| <= |r.buffer| - 1
  {
    hide PowerOfTwo, Wraps, Holds, ProducerOk, ConsumerOk;
  }

  /** The producer is about to write, or has written and not yet published, this slot. */
  predicate Writing<T>(r: Ring<T>, slot: nat) {
    (r.producer.HaveRoom? || r.producer.Filled?) && r.producer.head == slot
  }

  /** The consumer is about to read, or has read and not yet released, this slot. */
  predicate Reading<T>(r: Ring<T>, slot: nat) {
    (r.consumer.HaveItem? || r.consumer.Taken?) && r.consumer.tail == slot
  }

  /** The producer never writes a slot that holds an unreleased item, in particular not the one the
      consumer is reading. Both accesses are ordered by what was acquired: the consumer has read the
      head value that published its slot, and the producer the tail value that released its own. */
  lemma SlotsApart<T>(r: Ring<T>, slot: nat)
    requires RingOk(r)
    ensures Writing(r, slot) ==>
      && slot == Slot(|r.pushed|, |r.buffer|) && |r.pushed| - |r.buffer| < r.tailSeen
      && forall k :: |r.popped| <= k < |r.pushed| ==> Slot(k, |r.buffer|) != slot
    ensures Reading(r, slot) ==>
      slot == Slot(|r.popped|, |r.buffer|) && |r.popped| < r.headSeen && r.buffer[slot] == r.pushed[|r.popped|]
    ensures !(Writing(r, slot) && Reading(r, slot))
  {
    hide PowerOfTwo, Wraps, Slot;
    if Writing(r, slot) { FreeSlot(|r.popped|, |r.pushed|, |r.buffer|); }
  }

  // ---- Runs of one producer and one consumer ----

  /** Calls, inner steps and returns of the two threads. */
  datatype Act<T> =
    | Push(item: T) | Producing(k: nat) | PushReturns
    | Pop | Consuming(k: nat) | PopReturns | AskEmpty(k: nat)

  predicate CanAct<T>(r: Ring<T>, a: Act<T>) {
    match a
    case Push(_) => r.producer.Idle?
    case Producing(k) => CanProduce(r, k)
    case PushReturns => r.producer.Answer?
    case Pop => r.consumer.Resting?
    case Consuming(k) => CanConsume(r, k)
    case PopReturns => r.consumer.Reply?
    case AskEmpty(k) => r.consumer.Resting? && Loadable(r.heads, r.headSeen, k) && |r.tails| > 0
  }

  function Acted<T>(r: Ring<T>, a: Act<T>): Ring<T>
    requires CanAct(r, a)
  {
    match a
    case Push(x) => r.(producer := Called(x))
    case Producing(k) => Produce(r, k)
    case PushReturns => r.(producer := Idle)
    case Pop => r.(consumer := Asked)
    case Consuming(k) => Consume(r, k)
    case PopReturns => r.(consumer := Resting)
    case AskEmpty(k) => SeeEmpty(r, k).0
  }

  /** From `r`, an interleaving that performs exactly these acts ends in `s`. */
  ghost predicate RunsTo<T>(r: Ring<T>, acts: seq<Act<T>>, s: Ring<T>)
    decreases |acts|
  {
    if acts == [] then r == s else CanAct(r, acts[0]) && RunsTo(Acted(r, acts[0]), acts[1..], s)
  }

  lemma ActKeepsOk<T>(r: Ring<T>, a: Act<T>)
    requires RingOk(r) && CanAct(r, a)
    ensures RingOk(Acted(r, a)) && r.pushed <= Acted(r, a).pushed && r.popped <= Acted(r, a).popped
  {
    hide PowerOfTwo, Wraps, Holds, Slot;
    match a
    case Producing(k) => ProduceKeepsOk(r, k);
    case Consuming(k) => ConsumeKeepsOk(r, k);
    case AskEmpty(k) => SeesEmpty(r, k);
    case _ =>
  }

  lemma {:induction false} RunKeepsOk<T>(r: Ring<T>, acts: seq<Act<T>>, s: Ring<T>)
    requires RingOk(r) && RunsTo(r, acts, s)
    ensures RingOk(s) && |s.buffer| == |r.buffer| && r.pushed <= s.pushed && r.popped <= s.popped
    decreases |acts|
  {
    hide RingOk, Acted, CanAct;
    if acts == [] {
    } else {
      ActKeepsOk(r, acts[0]);
      SameCap(r, acts[0]);
      RunKeepsOk(Acted(r, acts[0]), acts[1..], s);
    }
  }

  /** Every state of every interleaving, with every choice of stale values, is in order. */
  lemma EveryRunIsFifo<T>(cap: nat, blank: T, acts: seq<Act<T>>, r: Ring<T>)
    requires RunsTo(NewRing(cap, blank), acts, r) && PowerOfTwo(cap) && cap >= 2
    ensures RingOk(r) && |r.buffer| == cap
    ensures |r.popped| <= |r.pushed| && r.popped + Queued(r) == r.pushed && |Queued(r)| <= cap - 1
  {
    hide RingOk, PowerOfTwo, RunsTo;
    NewRingOk(cap, blank);
    RunKeepsOk(NewRing(cap, blank), acts, r);
    FirstInFirstOut(r);
  }

  lemma SameCap<T>(r: Ring<T>, a: Act<T>)
    requires CanAct(r, a)
    ensures |Acted(r, a).buffer| == |r.buffer|
  {
    hide BitAnd;
  }

  /** Each side's step leaves the other side's part of the ring alone. */
  lemma ProduceFrame<T>(r: Ring<T>, k: nat)
    requires CanProduce(r, k)
    ensures var s := Produce(r, k);
      && s.consumer == r.consumer && s.popped == r.popped && s.tails == r.tails && s.headSeen == r.headSeen
      && |s.buffer| == |r.buffer|
      && s.pushed == (if r.producer.Filled? then r.pushed + [r.producer.item] else r.pushed)
      && (s.producer.Answer? ==> s.producer == Answer(r.producer.Filled?))
      && (r.producer.Filled? ==> s.producer.Answer?)
      && (s.producer.Answer? || s.producer.item == r.producer.item)
      && !s.producer.Idle?
  {
    hide BitAnd;
  }

  lemma ConsumeFrame<T>(r: Ring<T>, k: nat)
    requires CanConsume(r, k)
    ensures var s := Consume(r, k);
      && s.producer == r.producer && s.pushed == r.pushed && s.heads == r.heads && s.tailSeen == r.tailSeen
      && s.buffer == r.buffer && s.headSeen >= r.headSeen
      && s.popped == (if r.consumer.Taken? then r.popped + [r.consumer.out] else r.popped)
      && (s.consumer.Reply? ==> s.consumer.got == if r.consumer.Taken? then Some(r.consumer.out) else None)
      && (r.consumer.Taken? ==> s.consumer.Reply?)
      && !s.consumer.Resting?
  {
    hide BitAnd;
  }
}
