/** The specification of one order book: a flat list of resting orders in time priority, oldest
    first. A price level's FIFO queue is the sublist of one side and price. The four mutations follow
    the semantics stated at include/mdfh/order_book.hpp:61-76. */
module FlatBook {
  import opened Protocol
  import opened Ordered

  datatype Order = Order(id: nat, side: nat, price: int, quantity: nat)

  datatype Op =
    | Add(id: nat, side: nat, price: int, quantity: nat)
    | Cancel(id: nat)
    | Modify(id: nat, price: int, quantity: nat)
    | Execute(id: nat, quantity: nat)

  /** The position of the order with this id, or |f| when it does not rest. */
  function IndexOf(f: seq<Order>, id: nat): (i: nat)
    ensures i <= |f|
    ensures i < |f| ==> f[i].id == id
    ensures forall k :: 0 <= k < i ==> f[k].id != id
  {
    if f == [] || f[0].id == id then 0 else 1 + IndexOf(f[1..], id)
  }

  predicate Has(f: seq<Order>, id: nat) {
    IndexOf(f, id) < |f|
  }

  predicate UniqueIds(f: seq<Order>) {
    forall i, j :: 0 <= i < j < |f| ==> f[i].id != f[j].id
  }

  /** What every reachable book satisfies: ids are unique and no quantity is zero. */
  predicate ValidFlat(f: seq<Order>) {
    UniqueIds(f) && forall o :: o in f ==> o.quantity > 0
  }

  function RemoveAt(f: seq<Order>, i: nat): seq<Order>
    requires i < |f|
  {
    f[..i] + f[i + 1..]
  }

  /** The list after one mutation, and the value the mutation returns. */
  function Apply(f: seq<Order>, op: Op): (r: (seq<Order>, bool)) {
    var i := IndexOf(f, op.id);
    match op
    case Add(id, side, price, qty) =>
      if qty == 0 || i < |f| then (f, false) else (f + [Order(id, side, price, qty)], true)
    case Cancel(_) =>
      if i == |f| then (f, false) else (RemoveAt(f, i), true)
    case Modify(id, price, qty) =>
      if i == |f| then (f, false)
      else if qty == 0 then (RemoveAt(f, i), true)
      else if price == f[i].price && qty <= f[i].quantity then (f[i := f[i].(quantity := qty)], true)
      else (RemoveAt(f, i) + [Order(id, f[i].side, price, qty)], true)
    case Execute(_, qty) =>
      if i == |f| then (f, false)
      else if qty < f[i].quantity then (f[i := f[i].(quantity := f[i].quantity - qty)], true)
      else (RemoveAt(f, i), true)
  }

  lemma IndexOfUnique(f: seq<Order>, i: nat)
    requires UniqueIds(f) && i < |f|
    ensures IndexOf(f, f[i].id) == i
  {
  }

  lemma ApplyKeepsValid(f: seq<Order>, op: Op)
    requires ValidFlat(f)
    ensures ValidFlat(Apply(f, op).0)
  {
    var i := IndexOf(f, op.id);
    var g := Apply(f, op).0;
    forall o | o in g ensures o.quantity > 0 {
      var k :| 0 <= k < |g| && g[k] == o;
      if i < |f| && |g| == |f| && g == f[i := g[i]] {
      } else if o in f {
      }
    }
  }

  lemma ValidIsUnique(f: seq<Order>)
    requires ValidFlat(f)
    ensures UniqueIds(f)
  {
  }

  lemma OneOf(f: seq<Order>, i: nat)
    requires i < |f|
    ensures forall o :: o in f <==> o == f[i] || o in RemoveAt(f, i)
  {
    var g := RemoveAt(f, i);
    forall o | o in f ensures o == f[i] || o in g {
      var k :| 0 <= k < |f| && f[k] == o;
      if k != i { assert o == if k < i then g[k] else g[k - 1]; }
    }
  }

  /** The rest of the list without one order. */
  lemma RestOf(f: seq<Order>, i: nat)
    requires i < |f| && UniqueIds(f)
    ensures f[i] in f
    ensures forall o :: o in f ==> o == f[i] || o in RemoveAt(f, i)
    ensures forall o :: o in RemoveAt(f, i) ==> o in f && o.id != f[i].id
  {
    var g := RemoveAt(f, i);
    OneOf(f, i);
    forall o | o in g ensures o.id != f[i].id {
      var k :| 0 <= k < |g| && g[k] == o;
      assert o == if k < i then f[k] else f[k + 1];
    }
  }

  lemma MemberIsHad(f: seq<Order>, o: Order)
    requires o in f
    ensures Has(f, o.id)
  {
  }

  /** The quantity an accepted mutation puts in, and the quantity it takes out. */
  function Given(op: Op): nat {
    if op.Add? || op.Modify? then op.quantity else 0
  }

  function Taken(o: Order, op: Op): nat {
    if op.Add? then 0 else if op.Execute? then Min(op.quantity, o.quantity) else o.quantity
  }

  /** What one mutation does, said without its branches: when it is accepted; that a rejected one changes
      nothing; that no other order is touched; how much quantity it adds and removes; which order, if
      any, carries the id afterwards. */
  lemma ApplyEffect(f: seq<Order>, op: Op)
    requires ValidFlat(f)
    ensures var ((g, ok), i) := (Apply(f, op), IndexOf(f, op.id));
      && (ok <==> if op.Add? then op.quantity > 0 && !Has(f, op.id) else Has(f, op.id))
      && (!ok ==> g == f)
      && (forall o: Order :: o.id != op.id ==> (o in g <==> o in f))
      && (ok ==> Total(g) + (if op.Add? then 0 else Taken(f[i], op)) == Total(f) + Given(op))
      && (ok ==> forall o: Order :: o in g && o.id == op.id ==>
            && (!op.Add? ==> o.side == f[i].side)
            && (op.Add? || op.Modify? ==> o.price == op.price && o.quantity == op.quantity)
            && (op.Add? ==> o.side == op.side) && !op.Cancel?
            && (op.Execute? ==> o.price == f[i].price && o.quantity == f[i].quantity - op.quantity))
  {
    ValidIsUnique(f);
    hide ValidFlat, UniqueIds, Total, IndexOf, RemoveAt;
    var i := IndexOf(f, op.id);
    var g := Apply(f, op).0;
    if i == |f| {
      forall k | 0 <= k < |f| ensures f[k].id != op.id { }
      if op.Add? {
        var o := Order(op.id, op.side, op.price, op.quantity);
        AtBack(f, o);
        TotalAt(f + [o], |f|);
      }
    } else {
      RestOf(f, i);
      TotalAt(f, i);
      RemovedSize(f, i);
      match op
      case Modify(id, price, qty) =>
        var o := Order(id, f[i].side, price, qty);
        InPlace(f, i, f[i].(quantity := qty));
        AtBack(RemoveAt(f, i), o);
        if price == f[i].price && 0 < qty <= f[i].quantity { Replaced(f, i, g, i); }
        else if qty > 0 { Replaced(f, i, g, |f| - 1); }
      case Execute(_, qty) =>
        if qty < f[i].quantity {
          InPlace(f, i, f[i].(quantity := f[i].quantity - qty));
          Replaced(f, i, g, i);
        }
      case _ =>
    }
  }

  lemma InPlace(f: seq<Order>, i: nat, o: Order)
    requires i < |f|
    ensures RemoveAt(f[i := o], i) == RemoveAt(f, i)
  {
  }

  lemma AtBack(f: seq<Order>, o: Order)
    ensures RemoveAt(f + [o], |f|) == f
  {
  }

  lemma RemovedSize(f: seq<Order>, i: nat)
    requires i < |f|
    ensures |RemoveAt(f, i)| == |f| - 1
  {
  }

  /** The same list but for one order, which may have moved. */
  lemma Replaced(f: seq<Order>, i: nat, g: seq<Order>, k: nat)
    requires i < |f| && k < |g| && UniqueIds(f)
    requires RemoveAt(g, k) == RemoveAt(f, i) && g[k].id == f[i].id
    ensures forall o: Order :: o.id != f[i].id ==> (o in g <==> o in f)
    ensures forall o: Order :: o in g && o.id == f[i].id ==> o == g[k]
    ensures Total(g) + f[i].quantity == Total(f) + g[k].quantity
  {
    hide UniqueIds, Total, RemoveAt;
    RestOf(f, i);
    OneOf(g, k);
    TotalAt(f, i);
    TotalAt(g, k);
  }

  lemma TotalAt(f: seq<Order>, i: nat)
    requires i < |f|
    ensures Total(f) == Total(RemoveAt(f, i)) + f[i].quantity
  {
    assert f == f[..i + 1] + f[i + 1..];
    TotalConcat(f[..i + 1], f[i + 1..]);
    TotalOfNext(f, i);
    TotalConcat(f[..i], f[i + 1..]);
  }

  // ---- Price levels ----

  predicate At(o: Order, buy: bool, price: int) {
    (o.side == BUY) == buy && o.price == price
  }

  /** The FIFO queue of one level: the orders of that side and price, oldest first. */
  function Queue(f: seq<Order>, buy: bool, price: int): seq<Order> {
    if f == [] then []
    else Only(f[0], buy, price) + Queue(f[1..], buy, price)
  }

  lemma {:induction false} QueueMembers(f: seq<Order>, buy: bool, price: int)
    ensures forall o :: o in Queue(f, buy, price) <==> o in f && At(o, buy, price)
  {
    if f == [] {
    } else {
      QueueMembers(f[1..], buy, price);
      assert f == [f[0]] + f[1..];
    }
  }

  function Total(q: seq<Order>): nat {
    if q == [] then 0 else q[0].quantity + Total(q[1..])
  }

  function Prices(f: seq<Order>, buy: bool): set<int> {
    set o | o in f && (o.side == BUY) == buy :: o.price
  }

  /** Aggregate quantity per price, in the 32-bit arithmetic of both `PriceLevel::total_quantity` and
      the simulator's depth maps. */
  function Depth(f: seq<Order>, buy: bool): map<int, nat> {
    map p | p in Prices(f, buy) :: Total(Queue(f, buy, p)) % TWO32
  }

  /** `m` is that map, said price by price. */
  ghost predicate IsDepth(m: map<int, nat>, f: seq<Order>, buy: bool) {
    forall p :: (p in m <==> Queue(f, buy, p) != []) && (p in m ==> m[p] == Total(Queue(f, buy, p)) % TWO32)
  }

  lemma IsDepthIffEqual(m: map<int, nat>, f: seq<Order>, buy: bool)
    ensures IsDepth(m, f, buy) <==> m == Depth(f, buy)
  {
    hide Queue, Total;
    forall p ensures p in Prices(f, buy) <==> Queue(f, buy, p) != [] { PricesAreQueues(f, buy, p); }
    var d := Depth(f, buy);
    assert d.Keys == Prices(f, buy);
    if IsDepth(m, f, buy) {
      assert forall p :: p in m <==> p in d;
      assert m == d;
    }
  }

  ghost predicate Crossed(f: seq<Order>) {
    exists a, b :: a in f && b in f && a.side == BUY && b.side != BUY && a.price >= b.price
  }

  lemma TotalOfNext(q: seq<Order>, k: nat)
    requires k < |q|
    ensures Total(q[..k + 1]) == Total(q[..k]) + q[k].quantity
  {
    assert q[..k + 1] == q[..k] + [q[k]];
    TotalConcat(q[..k], [q[k]]);
    assert [q[k]][1..] == [];
  }

  function Only(o: Order, buy: bool, price: int): seq<Order> {
    if At(o, buy, price) then [o] else []
  }

  lemma QueueUnfolds(f: seq<Order>, buy: bool, price: int)
    ensures Queue(f, buy, price) == if f == [] then [] else Only(f[0], buy, price) + Queue(f[1..], buy, price)
  {
  }

  lemma {:induction false} QueueConcat(a: seq<Order>, b: seq<Order>, buy: bool, price: int)
    ensures Queue(a + b, buy, price) == Queue(a, buy, price) + Queue(b, buy, price)
  {
    hide Queue, Only;
    QueueUnfolds(a, buy, price);
    if a == [] {
      assert a + b == b;
    } else {
      QueueUnfolds(a + b, buy, price);
      assert (a + b)[1..] == a[1..] + b;
      QueueConcat(a[1..], b, buy, price);
    }
  }

  lemma {:induction false} TotalConcat(a: seq<Order>, b: seq<Order>)
    ensures Total(a + b) == Total(a) + Total(b)
  {
    if a == [] {
      assert a + b == b;
    } else {
      assert (a + b)[1..] == a[1..] + b;
      TotalConcat(a[1..], b);
    }
  }

  lemma QueueOfOne(o: Order, buy: bool, price: int)
    ensures Queue([o], buy, price) == Only(o, buy, price)
  {
    assert [o][1..] == [];
  }

  lemma QueueAppend(f: seq<Order>, o: Order, buy: bool, price: int)
    ensures Queue(f + [o], buy, price) == Queue(f, buy, price) + Only(o, buy, price)
  {
    QueueConcat(f, [o], buy, price);
    QueueOfOne(o, buy, price);
  }

  /** A queue around one position of the flat list. */
  lemma QueueSplit(f: seq<Order>, i: nat, buy: bool, price: int)
    requires i < |f|
    ensures Queue(f, buy, price)
         == Queue(f[..i], buy, price) + Only(f[i], buy, price) + Queue(f[i + 1..], buy, price)
  {
    assert f == f[..i + 1] + f[i + 1..] && f[..i + 1] == f[..i] + [f[i]];
    QueueConcat(f[..i + 1], f[i + 1..], buy, price);
    QueueAppend(f[..i], f[i], buy, price);
  }

  lemma QueueRemoved(f: seq<Order>, i: nat, buy: bool, price: int)
    requires i < |f|
    ensures Queue(RemoveAt(f, i), buy, price) == Queue(f[..i], buy, price) + Queue(f[i + 1..], buy, price)
  {
    QueueConcat(f[..i], f[i + 1..], buy, price);
  }

  lemma QueueUpdated(f: seq<Order>, i: nat, o: Order, buy: bool, price: int)
    requires i < |f|
    ensures Queue(f[i := o], buy, price)
         == Queue(f[..i], buy, price) + Only(o, buy, price) + Queue(f[i + 1..], buy, price)
  {
    var g := f[i := o];
    assert g[..i] == f[..i] && g[i + 1..] == f[i + 1..];
    QueueSplit(g, i, buy, price);
  }

  lemma PricesAreQueues(f: seq<Order>, buy: bool, price: int)
    ensures price in Prices(f, buy) <==> Queue(f, buy, price) != []
  {
    QueueMembers(f, buy, price);
    if price in Prices(f, buy) {
      var o :| o in f && (o.side == BUY) == buy && o.price == price;
      assert o in Queue(f, buy, price);
    }
    if Queue(f, buy, price) != [] {
      var o := Queue(f, buy, price)[0];
      assert o in Queue(f, buy, price);
    }
  }

  /** A level's sum is exact whenever it fits 32 bits, so its cached total then never wraps. */
  lemma DepthExact(f: seq<Order>, buy: bool, price: int)
    requires price in Depth(f, buy) && Total(Queue(f, buy, price)) < TWO32
    ensures Depth(f, buy)[price] == Total(Queue(f, buy, price))
  {
    hide Queue, Total;
  }

  // ---- Views ----

  datatype LevelView = LevelView(price: int, quantity: nat, orderCount: nat)

  function ViewOf(f: seq<Order>, buy: bool, price: int): LevelView {
    LevelView(price, Total(Queue(f, buy, price)) % TWO32, |Queue(f, buy, price)| % TWO32)
  }

  function Min(a: nat, b: nat): nat {
    if a <= b then a else b
  }

  function Views(f: seq<Order>, buy: bool, ps: seq<int>): (r: seq<LevelView>)
    ensures |r| == |ps|
  {
    if ps == [] then [] else Views(f, buy, ps[..|ps| - 1]) + [ViewOf(f, buy, ps[|ps| - 1])]
  }

  /** The best `depth` levels of one side, best first. */
  function TopLevels(f: seq<Order>, buy: bool, depth: nat): seq<LevelView> {
    Views(f, buy, TopKeys(buy, Prices(f, buy), depth))
  }

  function Best(f: seq<Order>, buy: bool): Option<LevelView> {
    if Prices(f, buy) == {} then None else Some(ViewOf(f, buy, BestOf(buy, Prices(f, buy))))
  }

  function Entries(depth: map<int, nat>, ps: seq<int>): (r: seq<SnapshotLevel>)
    ensures |r| == |ps|
  {
    if ps == [] then []
    else
      var p := ps[|ps| - 1];
      Entries(depth, ps[..|ps| - 1]) + [SnapshotLevel(p, if p in depth then depth[p] else 0)]
  }

  function ZeroFilled(levels: seq<SnapshotLevel>): (r: seq<SnapshotLevel>)
    requires |levels| <= MAX_SNAPSHOT_LEVELS
    ensures |r| == MAX_SNAPSHOT_LEVELS
  {
    levels + seq(MAX_SNAPSHOT_LEVELS - |levels|, _ => SnapshotLevel(0, 0))
  }

  /** The levels a snapshot carries for one side of an aggregate depth map. */
  function SnapshotSide(depth: map<int, nat>, buy: bool): seq<SnapshotLevel> {
    Entries(depth, TopKeys(buy, depth.Keys, MAX_SNAPSHOT_LEVELS))
  }

  function SnapshotOf(symbol: nat, bids: map<int, nat>, asks: map<int, nat>): Body {
    var (b, a) := (SnapshotSide(bids, true), SnapshotSide(asks, false));
    BookSnapshot(symbol, |b|, |a|, ZeroFilled(b), ZeroFilled(a))
  }

  lemma {:induction false} EntryIs(m: map<int, nat>, ps: seq<int>, i: nat)
    requires i < |ps|
    ensures Entries(m, ps)[i] == SnapshotLevel(ps[i], if ps[i] in m then m[ps[i]] else 0)
  {
    if i < |ps| - 1 {
      EntryIs(m, ps[..|ps| - 1], i);
    }
  }

  /** A snapshot's levels are the book's views without the order counts. */
  lemma {:induction false} EntriesOfViews(f: seq<Order>, buy: bool, ps: seq<int>, i: nat)
    requires i < |ps| && forall p :: p in ps ==> p in Prices(f, buy)
    ensures var v := Views(f, buy, ps)[i];
      Entries(Depth(f, buy), ps)[i] == SnapshotLevel(v.price, v.quantity)
  {
    hide Queue, Total;
    var n := |ps| - 1;
    assert ps[n] in ps;
    if i < n {
      EntriesOfViews(f, buy, ps[..n], i);
    }
  }

  predicate On(o: Order, buy: bool) {
    (o.side == BUY) == buy
  }

  /** The best price of a side is an order's, and bounds all of that side. */
  lemma BestQuote(g: seq<Order>, buy: bool)
    ensures Prices(g, buy) == {} <==> forall x :: x in g ==> !On(x, buy)
    ensures Prices(g, buy) != {} ==>
      var m := BestOf(buy, Prices(g, buy));
      && (exists x :: x in g && On(x, buy) && x.price == m)
      && (forall x :: x in g && On(x, buy) ==> x.price == m || Better(buy, m, x.price))
  {
    forall x | x in g && On(x, buy) ensures x.price in Prices(g, buy) { }
  }

  // ---- Crossed books and order counts ----

  lemma CrossedAtTheTop(f: seq<Order>)
    ensures Crossed(f) <==>
      Prices(f, true) != {} && Prices(f, false) != {} && BestOf(true, Prices(f, true)) >= BestOf(false, Prices(f, false))
  {
    var bids, asks := Prices(f, true), Prices(f, false);
    if bids != {} && asks != {} {
      var b, a := BestOf(true, bids), BestOf(false, asks);
      var ob :| ob in f && ob.side == BUY && ob.price == b;
      var oa :| oa in f && oa.side != BUY && oa.price == a;
      forall x, y | x in f && y in f && x.side == BUY && y.side != BUY ensures x.price <= b && a <= y.price {
        assert x.price in bids && y.price in asks;
      }
    }
    if Crossed(f) {
      var x, y :| x in f && y in f && x.side == BUY && y.side != BUY && x.price >= y.price;
      assert x.price in bids && y.price in asks;
    }
  }

  /** How many orders of one side rest at one of the prices in `ps`. */
  function CountIn(f: seq<Order>, buy: bool, ps: set<int>): nat {
    if f == [] then 0
    else (if (f[0].side == BUY) == buy && f[0].price in ps then 1 else 0) + CountIn(f[1..], buy, ps)
  }

  lemma {:induction false} CountLevel(f: seq<Order>, buy: bool, ps: set<int>, price: int)
    requires price in ps
    ensures CountIn(f, buy, ps) == CountIn(f, buy, ps - {price}) + |Queue(f, buy, price)|
  {
    if f == [] {
    } else {
      CountLevel(f[1..], buy, ps, price);
    }
  }

  lemma {:induction false} CountNone(f: seq<Order>, buy: bool)
    ensures CountIn(f, buy, {}) == 0
  {
    if f == [] {
    } else {
      CountNone(f[1..], buy);
    }
  }

  lemma {:induction false} CountAll(f: seq<Order>, bids: set<int>, asks: set<int>)
    requires forall o :: o in f ==> o.price in (if o.side == BUY then bids else asks)
    ensures CountIn(f, true, bids) + CountIn(f, false, asks) == |f|
  {
    if f == [] {
    } else {
      assert f[0] in f;
      forall o | o in f[1..] ensures o in f { assert f == [f[0]] + f[1..]; }
      CountAll(f[1..], bids, asks);
    }
  }

  lemma TailIds(f: seq<Order>)
    requires UniqueIds(f) && f != []
    ensures var rest := set o | o in f[1..] :: o.id;
      (set o | o in f :: o.id) == rest + {f[0].id} && f[0].id !in rest && UniqueIds(f[1..])
  {
    assert f == [f[0]] + f[1..];
    forall o | o in f[1..] ensures o.id != f[0].id {
      var k :| 0 <= k < |f| - 1 && f[1..][k] == o;
      assert f[k + 1] == o;
    }
  }

  lemma {:induction false} CountIds(f: seq<Order>, ids: set<nat>)
    requires UniqueIds(f) && ids == set o | o in f :: o.id
    ensures |ids| == |f|
  {
    hide UniqueIds;
    if f == [] {
      assert ids == {};
    } else {
      var rest := set o | o in f[1..] :: o.id;
      TailIds(f);
      CountIds(f[1..], rest);
    }
  }
}
