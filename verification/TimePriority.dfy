/** Price-time priority over runs (src/order_book.cpp:56-106, include/mdfh/order_book.hpp:70-73): which
    mutations can change the order of two resting orders inside one level's queue. */
module TimePriority {
  import opened FlatBook

  predicate RestsAt(f: seq<Order>, id: nat, buy: bool, price: int) {
    Has(Queue(f, buy, price), id)
  }

  /** `a` is served before `b` in the queue of one level. */
  predicate Ahead(f: seq<Order>, a: nat, b: nat, buy: bool, price: int) {
    RestsAt(f, a, buy, price) && RestsAt(f, b, buy, price)
    && IndexOf(Queue(f, buy, price), a) < IndexOf(Queue(f, buy, price), b)
  }

  /** The mutation sends the order `id` to the back of a queue. */
  predicate Requeues(f: seq<Order>, op: Op, id: nat) {
    op.Modify? && op.id == id && Has(f, id) && op.quantity > 0
    && var o := f[IndexOf(f, id)];
       !(op.price == o.price && op.quantity <= o.quantity)
  }

  lemma UniqueTail(f: seq<Order>)
    requires UniqueIds(f) && f != []
    ensures UniqueIds(f[1..]) && !Has(f[1..], f[0].id)
  {
  }

  lemma IndexUnfolds(f: seq<Order>, id: nat)
    ensures IndexOf(f, id) == if f == [] || f[0].id == id then 0 else 1 + IndexOf(f[1..], id)
  {
  }

  /** How a queue's head and tail follow the flat list's. */
  lemma QueueStep(f: seq<Order>, id: nat, buy: bool, price: int)
    requires f != []
    ensures var (q, t) := (Queue(f, buy, price), Queue(f[1..], buy, price));
      if At(f[0], buy, price)
      then |q| == 1 + |t| && IndexOf(q, id) == if f[0].id == id then 0 else 1 + IndexOf(t, id)
      else q == t
  {
    hide IndexOf, Queue;
    QueueUnfolds(f, buy, price);
    var q, t := Queue(f, buy, price), Queue(f[1..], buy, price);
    if At(f[0], buy, price) {
      assert q == [f[0]] + t && q[0] == f[0] && q[1..] == t;
      IndexUnfolds(q, id);
    } else {
      assert q == [] + t == t;
    }
  }

  lemma {:induction false} NotInQueue(f: seq<Order>, id: nat, buy: bool, price: int)
    requires !Has(f, id)
    ensures !RestsAt(f, id, buy, price)
  {
    hide IndexOf, Queue;
    QueueUnfolds(f, buy, price);
    if f == [] {
    } else {
      IndexUnfolds(f, id);
      QueueStep(f, id, buy, price);
      NotInQueue(f[1..], id, buy, price);
    }
  }

  /** A queue holds an order exactly when it rests at that level. */
  lemma {:induction false} QueueHolds(f: seq<Order>, id: nat, buy: bool, price: int)
    requires UniqueIds(f)
    ensures RestsAt(f, id, buy, price) <==> Has(f, id) && At(f[IndexOf(f, id)], buy, price)
  {
    hide IndexOf, Queue, UniqueIds;
    QueueUnfolds(f, buy, price);
    if f == [] {
    } else {
      UniqueTail(f);
      IndexUnfolds(f, id);
      QueueStep(f, id, buy, price);
      if f[0].id == id {
        NotInQueue(f[1..], id, buy, price);
      } else {
        QueueHolds(f[1..], id, buy, price);
      }
    }
  }

  /** A queue keeps the order of the flat list. */
  lemma {:induction false} QueueOrder(f: seq<Order>, a: nat, b: nat, buy: bool, price: int)
    requires UniqueIds(f) && a != b && RestsAt(f, a, buy, price) && RestsAt(f, b, buy, price)
    ensures Ahead(f, a, b, buy, price) <==> IndexOf(f, a) < IndexOf(f, b)
  {
    hide IndexOf, Queue, UniqueIds;
    QueueUnfolds(f, buy, price);
    if f == [] {
    } else {
      UniqueTail(f);
      IndexUnfolds(f, a);
      IndexUnfolds(f, b);
      QueueStep(f, a, buy, price);
      QueueStep(f, b, buy, price);
      QueueHolds(f, a, buy, price);
      QueueHolds(f, b, buy, price);
      if f[0].id != a && f[0].id != b {
        QueueOrder(f[1..], a, b, buy, price);
      }
    }
  }

  lemma Shifted(f: seq<Order>, i: nat)
    requires i < |f|
    ensures var g := RemoveAt(f, i); forall j :: 0 <= j < |g| ==> g[j] == f[if j < i then j else j + 1]
  {
  }

  lemma RemovedLength(f: seq<Order>, i: nat)
    requires i < |f|
    ensures |RemoveAt(f, i)| == |f| - 1
  {
  }

  lemma UniqueAfterRemove(f: seq<Order>, i: nat)
    requires UniqueIds(f) && i < |f|
    ensures UniqueIds(RemoveAt(f, i))
  {
  }

  lemma IndexAfterRemove(f: seq<Order>, i: nat, id: nat)
    requires ValidFlat(f) && i < |f| && id != f[i].id
    ensures var (g, k) := (RemoveAt(f, i), IndexOf(f, id));
      (Has(g, id) <==> Has(f, id)) && (Has(f, id) ==> IndexOf(g, id) == if k < i then k else k - 1)
  {
    hide IndexOf, UniqueIds, RemoveAt;
    var g, k := RemoveAt(f, i), IndexOf(f, id);
    Shifted(f, i);
    UniqueAfterRemove(f, i);
    RemovedLength(f, i);
    if k < |f| {
      IndexOfUnique(g, if k < i then k else k - 1);
    }
  }

  lemma IndexAfterAppend(f: seq<Order>, o: Order, id: nat)
    requires id != o.id
    ensures Has(f + [o], id) <==> Has(f, id)
    ensures Has(f, id) ==> IndexOf(f + [o], id) == IndexOf(f, id)
  {
    var k := IndexOf(f + [o], id);
    if k < |f| { assert (f + [o])[k] == f[k]; }
    if Has(f, id) { assert (f + [o])[IndexOf(f, id)] == f[IndexOf(f, id)]; }
    forall j | 0 <= j < |f| ensures (f + [o])[j] == f[j] { }
  }

  lemma IndexAfterUpdate(f: seq<Order>, i: nat, o: Order, id: nat)
    requires UniqueIds(f) && i < |f| && o.id == f[i].id && Has(f, id)
    ensures IndexOf(f[i := o], id) == IndexOf(f, id)
  {
    var g := f[i := o];
    assert UniqueIds(g);
    IndexOfUnique(g, IndexOf(f, id));
  }

  lemma LastAfterRequeue(f: seq<Order>, i: nat, o: Order)
    requires ValidFlat(f) && i < |f| && o.id == f[i].id
    ensures IndexOf(RemoveAt(f, i) + [o], o.id) == |f| - 1
  {
    var g := RemoveAt(f, i) + [o];
    Shifted(f, i);
    assert g[|f| - 1] == o;
    assert forall j :: 0 <= j < |f| - 1 ==> g[j] == RemoveAt(f, i)[j];
  }

  /** One mutation lets an order that was ahead and still rests beside the other lose its place
      exactly when it requeues that very order. */
  lemma PriorityKeptByStep(f: seq<Order>, op: Op, a: nat, b: nat, buy: bool, price: int)
    requires ValidFlat(f) && a != b && Ahead(f, a, b, buy, price)
    requires var g := Apply(f, op).0; RestsAt(g, a, buy, price) && RestsAt(g, b, buy, price)
    ensures Ahead(Apply(f, op).0, a, b, buy, price) <==> !Requeues(f, op, a)
  {
    hide Queue, Ahead, ValidFlat, UniqueIds, Apply, Requeues, RestsAt, IndexOf;
    var g := Apply(f, op).0;
    ApplyKeepsValid(f, op);
    ValidIsUnique(f);
    ValidIsUnique(g);
    AheadRests(f, a, b, buy, price);
    QueueHolds(f, a, buy, price);
    QueueHolds(f, b, buy, price);
    QueueHolds(g, a, buy, price);
    QueueHolds(g, b, buy, price);
    QueueOrder(f, a, b, buy, price);
    QueueOrder(g, a, b, buy, price);
    StepKeepsIndexOrder(f, op, a, b);
  }

  lemma AheadRests(f: seq<Order>, a: nat, b: nat, buy: bool, price: int)
    requires Ahead(f, a, b, buy, price)
    ensures RestsAt(f, a, buy, price) && RestsAt(f, b, buy, price)
  {
  }

  lemma StepKeepsIndexOrder(f: seq<Order>, op: Op, a: nat, b: nat)
    requires ValidFlat(f) && a != b && Has(f, a) && Has(f, b) && IndexOf(f, a) < IndexOf(f, b)
    requires var g := Apply(f, op).0; Has(g, a) && Has(g, b)
    ensures var g := Apply(f, op).0; IndexOf(g, a) < IndexOf(g, b) <==> !Requeues(f, op, a)
  {
    hide ValidFlat, IndexOf, UniqueIds;
    var g, i := Apply(f, op).0, IndexOf(f, op.id);
    assert UniqueIds(f) by { ValidIsUnique(f); }
    if Requeues(f, op, op.id) {
      RequeueOrder(f, i, g[|f| - 1], a, b);
    } else if |g| == |f| + 1 {
      IndexAfterAppend(f, g[|f|], a);
      IndexAfterAppend(f, g[|f|], b);
    } else if |g| == |f| - 1 {
      RemovedIsGone(f, i);
      IndexAfterRemove(f, i, a);
      IndexAfterRemove(f, i, b);
    } else if i < |f| && g == f[i := g[i]] {
      IndexAfterUpdate(f, i, g[i], a);
      IndexAfterUpdate(f, i, g[i], b);
    }
  }

  lemma RemovedIsGone(f: seq<Order>, i: nat)
    requires ValidFlat(f) && i < |f|
    ensures !Has(RemoveAt(f, i), f[i].id)
  {
    Shifted(f, i);
  }

  lemma RequeueOrder(f: seq<Order>, i: nat, o: Order, a: nat, b: nat)
    requires ValidFlat(f) && i < |f| && o.id == f[i].id
    requires a != b && Has(f, a) && Has(f, b) && IndexOf(f, a) < IndexOf(f, b)
    ensures var g := RemoveAt(f, i) + [o]; IndexOf(g, a) < IndexOf(g, b) <==> a != o.id
  {
    hide ValidFlat, IndexOf;
    var r := RemoveAt(f, i);
    LastAfterRequeue(f, i, o);
    if a != o.id {
      IndexAfterRemove(f, i, a);
      IndexAfterAppend(r, o, a);
    }
    if b != o.id {
      IndexAfterRemove(f, i, b);
      IndexAfterAppend(r, o, b);
    }
  }

  // ---- Runs ----

  function Run(f: seq<Order>, ops: seq<Op>): seq<Order>
    decreases |ops|
  {
    if ops == [] then f else Run(Apply(f, ops[0]).0, ops[1..])
  }

  /** At every point of the run both orders rest at the level and the next mutation does not requeue `a`. */
  predicate Undisturbed(f: seq<Order>, ops: seq<Op>, a: nat, b: nat, buy: bool, price: int)
    decreases |ops|
  {
    RestsAt(f, a, buy, price) && RestsAt(f, b, buy, price)
    && (ops != [] ==>
         !Requeues(f, ops[0], a) && Undisturbed(Apply(f, ops[0]).0, ops[1..], a, b, buy, price))
  }

  /** Time priority over whole runs, whatever happens to any other order, and whatever happens to `b`
      while it stays at the level. */
  lemma {:induction false} PriorityKeptByRun(f: seq<Order>, ops: seq<Op>, a: nat, b: nat, buy: bool, price: int)
    requires ValidFlat(f) && a != b && Ahead(f, a, b, buy, price) && Undisturbed(f, ops, a, b, buy, price)
    ensures Ahead(Run(f, ops), a, b, buy, price)
    decreases |ops|
  {
    hide ValidFlat, Ahead, RestsAt, Requeues, Apply;
    if ops == [] {
    } else {
      var g := Apply(f, ops[0]).0;
      ApplyKeepsValid(f, ops[0]);
      PriorityKeptByStep(f, ops[0], a, b, buy, price);
      PriorityKeptByRun(g, ops[1..], a, b, buy, price);
    }
  }

  // ---- First in, first out ----

  /** The mutation puts the order `id` at the back of a queue: an accepted add, or a requeueing modify. */
  predicate Places(f: seq<Order>, op: Op, id: nat): (r: bool)
    ensures r ==> op.id == id
  {
    op.id == id && (Requeues(f, op, id) || (op.Add? && op.quantity > 0 && !Has(f, id)))
  }

  /** Every other order that rests at a level is served before the one a mutation has just put there. */
  lemma PlacedLast(f: seq<Order>, op: Op, b: nat, buy: bool, price: int)
    requires ValidFlat(f) && Places(f, op, op.id) && b != op.id
    requires var g := Apply(f, op).0; RestsAt(g, op.id, buy, price) && RestsAt(g, b, buy, price)
    ensures Ahead(Apply(f, op).0, b, op.id, buy, price)
  {
    hide Queue, Ahead, ValidFlat, UniqueIds, RestsAt, IndexOf, Requeues, Apply;
    var g := Apply(f, op).0;
    ApplyKeepsValid(f, op);
    ValidIsUnique(g);
    QueueHolds(g, b, buy, price);
    QueueHolds(g, op.id, buy, price);
    QueueOrder(g, b, op.id, buy, price);
    PlacedAtEnd(f, op);
    IndexOfUnique(g, |g| - 1);
  }

  lemma PlacedAtEnd(f: seq<Order>, op: Op)
    requires ValidFlat(f) && Places(f, op, op.id)
    ensures var g := Apply(f, op).0; g != [] && g[|g| - 1].id == op.id
  {
    hide ValidFlat;
  }

  /** When `id` was last put at the back of a queue, in the run of `ops` from an empty book; -1 if never. */
  function Arrival(ops: seq<Op>, id: nat): int {
    if ops == [] then -1
    else
      var n := |ops| - 1;
      if Places(Run([], ops[..n]), ops[n], id) then n else Arrival(ops[..n], id)
  }

  lemma {:induction false} RunSnoc(f: seq<Order>, ops: seq<Op>, op: Op)
    ensures Run(f, ops + [op]) == Apply(Run(f, ops), op).0
    decreases |ops|
  {
    hide Apply;
    if ops == [] {
      assert [op][1..] == [] && ops + [op] == [op];
    } else {
      assert (ops + [op])[1..] == ops[1..] + [op];
      RunSnoc(Apply(f, ops[0]).0, ops[1..], op);
    }
  }

  ghost predicate InArrivalOrder(f: seq<Order>, ops: seq<Op>) {
    && (forall i :: 0 <= i < |f| ==> 0 <= Arrival(ops, f[i].id) < |ops|)
    && (forall i, j :: 0 <= i < j < |f| ==> Arrival(ops, f[i].id) < Arrival(ops, f[j].id))
  }

  lemma ArrivalStep(ops: seq<Op>, op: Op, id: nat)
    ensures Arrival(ops + [op], id) == if Places(Run([], ops), op, id) then |ops| else Arrival(ops, id)
  {
    hide Places, Run;
    assert (ops + [op])[..|ops|] == ops;
  }

  /** `g` is a part of `f` in the same order: `at` says where the order now at `k` stood before. */
  ghost predicate Keeps(f: seq<Order>, g: seq<Order>, at: seq<nat>) {
    && |g| == |at| && (forall k :: 0 <= k < |at| ==> at[k] < |f| && g[k].id == f[at[k]].id)
    && (forall j, k :: 0 <= j < k < |at| ==> at[j] < at[k])
  }

  lemma RemovalKeeps(f: seq<Order>, i: nat) returns (at: seq<nat>)
    requires i < |f|
    ensures Keeps(f, RemoveAt(f, i), at)
  {
    Shifted(f, i);
    RemovedLength(f, i);
    at := seq(|f| - 1, k requires 0 <= k < |f| - 1 => if k < i then k else k + 1);
  }

  lemma SameIdsKeep(f: seq<Order>, g: seq<Order>) returns (at: seq<nat>)
    requires |g| == |f| && forall k :: 0 <= k < |f| ==> g[k].id == f[k].id
    ensures Keeps(f, g, at)
  {
    at := seq(|f|, k requires 0 <= k < |f| => k);
  }

  /** What one mutation makes of the list: the orders it leaves keep their places, and one it places comes
      last. */
  lemma StepShape(f: seq<Order>, op: Op) returns (rest: seq<Order>, at: seq<nat>)
    requires ValidFlat(f)
    ensures Keeps(f, rest, at)
    ensures var g := Apply(f, op).0;
      if Places(f, op, op.id)
      then g != [] && rest == g[..|g| - 1] && g[|g| - 1].id == op.id && forall o :: o in rest ==> o.id != op.id
      else rest == g
  {
    ValidIsUnique(f);
    hide ValidFlat, IndexOf, UniqueIds, Keeps, RemoveAt;
    var g, i := Apply(f, op).0, IndexOf(f, op.id);
    if Places(f, op, op.id) {
      PlacedAtEnd(f, op);
      rest := g[..|g| - 1];
      if op.Add? {
        NobodyHas(f, op.id);
        assert rest == f;
        at := SameIdsKeep(f, rest);
      } else {
        RestOf(f, i);
        assert rest == RemoveAt(f, i);
        at := RemovalKeeps(f, i);
      }
    } else {
      rest := g;
      if i < |f| && g == RemoveAt(f, i) {
        at := RemovalKeeps(f, i);
      } else {
        at := SameIdsKeep(f, g);
      }
    }
  }

  lemma NobodyHas(f: seq<Order>, id: nat)
    requires !Has(f, id)
    ensures forall o :: o in f ==> o.id != id
  {
  }

  /** In every run from an empty book the orders stand in the order of their arrivals. */
  lemma {:induction false} StandByArrival(ops: seq<Op>)
    ensures ValidFlat(Run([], ops)) && InArrivalOrder(Run([], ops), ops)
  {
    hide Places, Apply, ValidFlat, Arrival;
    if ops == [] {
      NothingRests();
    } else {
      var n := |ops| - 1;
      var before, op := ops[..n], ops[n];
      var f := Run([], before);
      StandByArrival(before);
      assert ops == before + [op];
      RunSnoc([], before, op);
      ApplyKeepsValid(f, op);
      var rest, at := StepShape(f, op);
      hide Run;
      var g := Apply(f, op).0;
      forall k | 0 <= k < |rest| ensures Arrival(ops, g[k].id) == Arrival(before, f[at[k]].id) {
        ArrivalStep(before, op, g[k].id);
        assert rest[k] in rest;
      }
      if Places(f, op, op.id) { ArrivalStep(before, op, op.id); }
    }
  }

  lemma NothingRests()
    ensures Run([], []) == [] && ValidFlat([])
  {
  }

  /** First in, first out, over every run: of two orders at one level the one that arrived first is served
      first, where an order arrives when it is added and again when it is requeued. */
  lemma FirstComeFirstServed(ops: seq<Op>, a: nat, b: nat, buy: bool, price: int)
    requires a != b && RestsAt(Run([], ops), a, buy, price) && RestsAt(Run([], ops), b, buy, price)
    ensures Ahead(Run([], ops), a, b, buy, price) <==> Arrival(ops, a) < Arrival(ops, b)
  {
    hide Queue, Ahead, ValidFlat, UniqueIds, RestsAt, Run, IndexOf, Arrival;
    var f := Run([], ops);
    StandByArrival(ops);
    ValidIsUnique(f);
    QueueHolds(f, a, buy, price);
    QueueHolds(f, b, buy, price);
    QueueOrder(f, a, b, buy, price);
    assert f[IndexOf(f, a)].id == a && f[IndexOf(f, b)].id == b;
  }

  /** The order `id` was added by `ops[k]` and not placed again since. */
  ghost predicate AddedAt(ops: seq<Op>, k: nat, id: nat) {
    k < |ops| && ops[k].Add? && Places(Run([], ops[..k]), ops[k], id)
    && forall m :: k < m < |ops| ==> !Places(Run([], ops[..m]), ops[m], id)
  }

  lemma {:induction false} AddIsArrival(ops: seq<Op>, k: nat, id: nat)
    requires AddedAt(ops, k, id)
    ensures Arrival(ops, id) == k
    decreases |ops|
  {
    hide Places, Run;
    var n := |ops| - 1;
    if k == n {
    } else {
      assert forall m :: 0 <= m < n ==> ops[..n][..m] == ops[..m];
      AddIsArrival(ops[..n], k, id);
    }
  }

  /** So orders that were never requeued stand in the order of their adds. */
  lemma NeverRequeuedInAddOrder(ops: seq<Op>, i: nat, j: nat, a: nat, b: nat, buy: bool, price: int)
    requires a != b && AddedAt(ops, i, a) && AddedAt(ops, j, b)
    requires RestsAt(Run([], ops), a, buy, price) && RestsAt(Run([], ops), b, buy, price)
    ensures Ahead(Run([], ops), a, b, buy, price) <==> i < j
  {
    hide AddedAt, RestsAt, Ahead, Run;
    AddIsArrival(ops, i, a);
    AddIsArrival(ops, j, b);
    FirstComeFirstServed(ops, a, b, buy, price);
  }
}
