/** How the indexed book of include/mdfh/order_book.hpp:102-117 represents a flat list: two price maps
    whose levels hold FIFO queues and a cached 32-bit total, and a locator from order id to side, price
    and list iterator.

    A queue is a sequence of node handles and `nodes` holds what each live handle points at, so a
    handle is a `std::list` iterator: `Located` says that every locator entry still points at its own
    live node after any mutation, and that no node outlives its order. */
module BookLevels {
  import opened Protocol
  import opened FlatBook

  datatype RestingOrder = RestingOrder(id: nat, quantity: nat)
  datatype PriceLevel = PriceLevel(price: int, total: nat, orders: seq<nat>)
  datatype OrderLocation = OrderLocation(side: nat, price: int, it: nat)

  type LevelMap = map<int, PriceLevel>
  type Locator = map<nat, OrderLocation>

  // ---- What the two helpers of the source do to one price map ----

  function Inserted(m: LevelMap, price: int, it: nat, qty: nat): LevelMap {
    var level := if price in m then m[price] else PriceLevel(price, 0, []);
    m[price := PriceLevel(level.price, (level.total + qty) % TWO32, level.orders + [it])]
  }

  /** The list without the node `it`. */
  function Unlinked(orders: seq<nat>, it: nat): seq<nat> {
    if orders == [] then []
    else if orders[0] == it then orders[1..]
    else [orders[0]] + Unlinked(orders[1..], it)
  }

  function Erased(m: LevelMap, price: int, it: nat, qty: nat): LevelMap {
    if price !in m then m
    else
      var level := m[price];
      var rest := Unlinked(level.orders, it);
      if rest == [] then m - {price}
      else m[price := PriceLevel(level.price, (level.total - qty) % TWO32, rest)]
  }

  function Reduced(m: LevelMap, price: int, delta: nat): LevelMap {
    if price !in m then m
    else m[price := m[price].(total := (m[price].total - delta) % TWO32)]
  }

  // ---- The representation of a flat list ----

  function Handles(q: seq<Order>, loc: Locator): (r: seq<nat>)
    ensures |r| == |q|
  {
    seq(|q|, i requires 0 <= i < |q| => if q[i].id in loc then loc[q[i].id].it else 0)
  }

  function LevelAt(f: seq<Order>, buy: bool, price: int, loc: Locator): PriceLevel {
    PriceLevel(price, Total(Queue(f, buy, price)) % TWO32, Handles(Queue(f, buy, price), loc))
  }

  /** `m` is the price map of one side of `f`: a level exists exactly for each non-empty queue, and
      holds that queue and its total modulo 2^32. */
  ghost predicate IsLevels(m: LevelMap, f: seq<Order>, buy: bool, loc: Locator) {
    forall p :: (p in m <==> Queue(f, buy, p) != []) && (p in m ==> m[p] == LevelAt(f, buy, p, loc))
  }

  function Ids(f: seq<Order>): set<nat> {
    set o | o in f :: o.id
  }

  ghost predicate Located(f: seq<Order>, loc: Locator, nodes: map<nat, RestingOrder>) {
    && loc.Keys == Ids(f)
    && (forall o :: o in f ==>
         var l := loc[o.id];
         l.side == o.side && l.price == o.price && l.it in nodes && nodes[l.it] == RestingOrder(o.id, o.quantity))
    && (forall it :: it in nodes ==> nodes[it].id in loc && loc[nodes[it].id].it == it)
  }

  /** Different resting orders never share a node. */
  predicate Injective(f: seq<Order>, loc: Locator) {
    forall o, p :: o in f && p in f && o.id in loc && p.id in loc && loc[o.id].it == loc[p.id].it ==> o.id == p.id
  }

  lemma LocatedIsInjective(f: seq<Order>, loc: Locator, nodes: map<nat, RestingOrder>)
    requires Located(f, loc, nodes)
    ensures Injective(f, loc) && forall o :: o in f ==> o.id in loc
  {
    assert forall o :: o in f ==> o.id in Ids(f);
  }

  // ---- Mutating a level agrees with mutating the flat list ----

  lemma HandlesAgree(q: seq<Order>, loc: Locator, loc': Locator)
    requires forall o :: o in q ==> o.id in loc && o.id in loc' && loc[o.id].it == loc'[o.id].it
    ensures Handles(q, loc) == Handles(q, loc')
  {
    forall i | 0 <= i < |q| ensures Handles(q, loc)[i] == Handles(q, loc')[i] {
      assert q[i] in q;
    }
  }

  lemma HandlesConcat(a: seq<Order>, b: seq<Order>, loc: Locator)
    ensures Handles(a + b, loc) == Handles(a, loc) + Handles(b, loc)
  {
  }

  lemma LevelsAgree(m: LevelMap, f: seq<Order>, buy: bool, loc: Locator, loc': Locator)
    requires IsLevels(m, f, buy, loc)
    requires forall o :: o in f ==> o.id in loc && o.id in loc' && loc[o.id].it == loc'[o.id].it
    ensures IsLevels(m, f, buy, loc')
  {
    hide Handles, Total, Queue;
    forall p ensures LevelAt(f, buy, p, loc) == LevelAt(f, buy, p, loc') {
      QueueMembers(f, buy, p);
      HandlesAgree(Queue(f, buy, p), loc, loc');
    }
  }

  lemma ModAdd(a: nat, q: nat)
    ensures (a % TWO32 + q) % TWO32 == (a + q) % TWO32
  {
  }

  lemma ModSub(a: nat, q: nat)
    ensures ((a + q) % TWO32 - q) % TWO32 == a % TWO32
  {
  }

  lemma LevelAfterAppend(f: seq<Order>, o: Order, price: int, loc: Locator)
    requires o.id in loc && At(o, o.side == BUY, price)
    ensures var before := LevelAt(f, o.side == BUY, price, loc);
      LevelAt(f + [o], o.side == BUY, price, loc)
      == PriceLevel(price, (before.total + o.quantity) % TWO32, before.orders + [loc[o.id].it])
  {
    hide Queue, Handles;
    var buy := o.side == BUY;
    var q := Queue(f, buy, price);
    QueueAppend(f, o, buy, price);
    TotalConcat(q, [o]);
    HandlesConcat(q, [o], loc);
    assert Total([o]) == o.quantity by { assert [o][1..] == []; }
    HandleOfOne(o, loc);
    ModAdd(Total(q), o.quantity);
  }

  lemma HandleOfOne(o: Order, loc: Locator)
    requires o.id in loc
    ensures Handles([o], loc) == [loc[o.id].it]
  {
  }

  lemma LevelsAfterAppend(m: LevelMap, f: seq<Order>, o: Order, buy: bool, loc: Locator)
    requires o.id in loc && IsLevels(m, f, buy, loc)
    ensures IsLevels(if (o.side == BUY) == buy then Inserted(m, o.price, loc[o.id].it, o.quantity) else m,
                     f + [o], buy, loc)
  {
    hide Handles, Queue, Total;
    var m' := if (o.side == BUY) == buy then Inserted(m, o.price, loc[o.id].it, o.quantity) else m;
    forall p
      ensures (p in m' <==> Queue(f + [o], buy, p) != []) && (p in m' ==> m'[p] == LevelAt(f + [o], buy, p, loc))
    {
      QueueAppend(f, o, buy, p);
      assert p in m <==> Queue(f, buy, p) != [];
      if At(o, buy, p) {
        LevelAfterAppend(f, o, p, loc);
        if p !in m { EmptyLevel(f, buy, p, loc); }
      } else {
        assert Queue(f, buy, p) + [] == Queue(f, buy, p);
      }
    }
  }

  lemma EmptyLevel(f: seq<Order>, buy: bool, price: int, loc: Locator)
    requires Queue(f, buy, price) == []
    ensures LevelAt(f, buy, price, loc) == PriceLevel(price, 0, [])
  {
  }

  lemma {:induction false} UnlinkMiddle(a: seq<nat>, it: nat, b: seq<nat>)
    requires it !in a
    ensures Unlinked(a + [it] + b, it) == a + b
  {
    if a == [] {
      assert (a + [it] + b)[1..] == b;
    } else {
      assert (a + [it] + b)[1..] == a[1..] + [it] + b;
      UnlinkMiddle(a[1..], it, b);
    }
  }

  lemma HandleNotIn(q: seq<Order>, it: nat, loc: Locator)
    requires forall o :: o in q ==> o.id in loc && loc[o.id].it != it
    ensures it !in Handles(q, loc)
  {
    forall i | 0 <= i < |q| ensures Handles(q, loc)[i] != it {
      assert q[i] in q;
    }
  }

  lemma LevelAfterRemove(f: seq<Order>, i: nat, price: int, loc: Locator)
    requires i < |f| && At(f[i], f[i].side == BUY, price)
    requires UniqueIds(f) && Injective(f, loc) && forall o :: o in f ==> o.id in loc
    ensures var (o, before) := (f[i], LevelAt(f, f[i].side == BUY, price, loc));
      LevelAt(RemoveAt(f, i), o.side == BUY, price, loc)
      == PriceLevel(price, (before.total - o.quantity) % TWO32, Unlinked(before.orders, loc[o.id].it))
  {
    hide Queue, Handles, Unlinked, Injective, UniqueIds, Total;
    var o, buy := f[i], f[i].side == BUY;
    var a, b := Queue(f[..i], buy, price), Queue(f[i + 1..], buy, price);
    QueueSplit(f, i, buy, price);
    QueueRemoved(f, i, buy, price);
    TotalAround(a, o, b);
    ModSub(Total(a + b), o.quantity);
    QueueMembers(f[..i], buy, price);
    UnlinkAround(f, i, a, b, loc);
  }

  lemma TotalAround(a: seq<Order>, o: Order, b: seq<Order>)
    ensures Total(a + [o] + b) == Total(a + b) + o.quantity
  {
    TotalConcat(a + [o], b);
    TotalConcat(a, [o]);
    TotalConcat(a, b);
    assert [o][1..] == [];
  }

  lemma UnlinkAround(f: seq<Order>, i: nat, a: seq<Order>, b: seq<Order>, loc: Locator)
    requires i < |f| && UniqueIds(f) && Injective(f, loc) && forall o :: o in f ==> o.id in loc
    requires forall o :: o in a ==> o in f[..i]
    ensures Unlinked(Handles(a + [f[i]] + b, loc), loc[f[i].id].it) == Handles(a + b, loc)
  {
    var o := f[i];
    var it := loc[o.id].it;
    HandlesConcat(a + [o], b, loc);
    HandlesConcat(a, [o], loc);
    HandlesConcat(a, b, loc);
    HandleOfOne(o, loc);
    forall x | x in a ensures x.id in loc && loc[x.id].it != it {
      var k :| 0 <= k < i && f[..i][k] == x;
      assert f[k] == x && f[k].id != f[i].id;
    }
    HandleNotIn(a, it, loc);
    UnlinkMiddle(Handles(a, loc), it, Handles(b, loc));
  }

  lemma QueueElsewhere(f: seq<Order>, i: nat, buy: bool, price: int)
    requires i < |f| && !At(f[i], buy, price)
    ensures Queue(RemoveAt(f, i), buy, price) == Queue(f, buy, price)
  {
    QueueSplit(f, i, buy, price);
    QueueRemoved(f, i, buy, price);
    assert Queue(f[..i], buy, price) + [] == Queue(f[..i], buy, price);
  }

  lemma LevelsAfterRemove(m: LevelMap, f: seq<Order>, i: nat, buy: bool, loc: Locator)
    requires i < |f| && UniqueIds(f) && Injective(f, loc) && forall o :: o in f ==> o.id in loc
    requires IsLevels(m, f, buy, loc)
    ensures IsLevels(if (f[i].side == BUY) == buy then Erased(m, f[i].price, loc[f[i].id].it, f[i].quantity) else m,
                     RemoveAt(f, i), buy, loc)
    ensures (f[i].side == BUY) == buy ==> f[i].price in m
  {
    hide Queue, Handles, Total, Unlinked, UniqueIds, Injective;
    var g, o := RemoveAt(f, i), f[i];
    var m' := if (o.side == BUY) == buy then Erased(m, o.price, loc[o.id].it, o.quantity) else m;
    QueueSplit(f, i, buy, o.price);
    assert o.price in m <==> Queue(f, buy, o.price) != [];
    forall p
      ensures (p in m' <==> Queue(g, buy, p) != []) && (p in m' ==> m'[p] == LevelAt(g, buy, p, loc))
    {
      assert p in m <==> Queue(f, buy, p) != [];
      if At(o, buy, p) {
        LevelAfterRemove(f, i, p, loc);
        assert |LevelAt(g, buy, p, loc).orders| == |Queue(g, buy, p)|;
      } else {
        QueueElsewhere(f, i, buy, p);
      }
    }
  }

  lemma LevelAfterReduce(f: seq<Order>, i: nat, qty: nat, buy: bool, price: int, loc: Locator)
    requires i < |f| && qty <= f[i].quantity
    ensures var (o, g) := (f[i], f[i := f[i].(quantity := qty)]);
      LevelAt(g, buy, price, loc)
      == if At(o, buy, price)
         then LevelAt(f, buy, price, loc).(total := (LevelAt(f, buy, price, loc).total - (o.quantity - qty)) % TWO32)
         else LevelAt(f, buy, price, loc)
  {
    hide Queue, Handles;
    var o := f[i];
    var o' := o.(quantity := qty);
    var a, b := Queue(f[..i], buy, price), Queue(f[i + 1..], buy, price);
    QueueSplit(f, i, buy, price);
    QueueUpdated(f, i, o', buy, price);
    if At(o, buy, price) {
      TotalAround(a, o, b);
      TotalAround(a, o', b);
      ModSub(Total(a + [o'] + b), o.quantity - qty);
      HandlesSameIds(a + [o] + b, a + [o'] + b, loc);
    }
  }

  lemma HandlesSameIds(q: seq<Order>, q': seq<Order>, loc: Locator)
    requires |q| == |q'| && forall k :: 0 <= k < |q| ==> q[k].id == q'[k].id
    ensures Handles(q, loc) == Handles(q', loc)
  {
  }

  lemma LevelsAfterReduce(m: LevelMap, f: seq<Order>, i: nat, qty: nat, buy: bool, loc: Locator)
    requires i < |f| && qty <= f[i].quantity && IsLevels(m, f, buy, loc)
    ensures IsLevels(if (f[i].side == BUY) == buy then Reduced(m, f[i].price, f[i].quantity - qty) else m,
                     f[i := f[i].(quantity := qty)], buy, loc)
    ensures (f[i].side == BUY) == buy ==> f[i].price in m
  {
    hide Queue, Handles, Total;
    var g, o := f[i := f[i].(quantity := qty)], f[i];
    var m' := if (o.side == BUY) == buy then Reduced(m, o.price, o.quantity - qty) else m;
    QueueSplit(f, i, buy, o.price);
    assert o.price in m <==> Queue(f, buy, o.price) != [];
    forall p
      ensures (p in m' <==> Queue(g, buy, p) != []) && (p in m' ==> m'[p] == LevelAt(g, buy, p, loc))
    {
      assert p in m <==> Queue(f, buy, p) != [];
      LevelAfterReduce(f, i, qty, buy, p, loc);
      assert |LevelAt(g, buy, p, loc).orders| == |Queue(g, buy, p)|;
      assert |LevelAt(f, buy, p, loc).orders| == |Queue(f, buy, p)|;
    }
  }

  // ---- The whole representation ----

  ghost predicate Represents(f: seq<Order>, bids: LevelMap, asks: LevelMap, loc: Locator, nodes: map<nat, RestingOrder>) {
    Located(f, loc, nodes) && IsLevels(bids, f, true, loc) && IsLevels(asks, f, false, loc)
  }

  lemma LocatedAppend(f: seq<Order>, loc: Locator, nodes: map<nat, RestingOrder>, o: Order, it: nat)
    requires Located(f, loc, nodes) && it !in nodes && o.id !in loc
    ensures Located(f + [o], loc[o.id := OrderLocation(o.side, o.price, it)], nodes[it := RestingOrder(o.id, o.quantity)])
  {
    var loc' := loc[o.id := OrderLocation(o.side, o.price, it)];
    assert forall x :: x in f + [o] <==> x in f || x == o;
    assert forall x :: x in f ==> x.id in Ids(f);
    assert loc'.Keys == Ids(f + [o]);
  }

  lemma InRemoved(f: seq<Order>, i: nat, o: Order)
    requires i < |f| && UniqueIds(f)
    ensures o in RemoveAt(f, i) <==> o in f && o.id != f[i].id
  {
    if o in f && o.id != f[i].id {
      var k :| 0 <= k < |f| && f[k] == o;
      assert o in f[..i] || o in f[i + 1..] by {
        if k < i { assert f[..i][k] == o; } else { assert f[i + 1..][k - i - 1] == o; }
      }
    }
  }

  lemma LocatedRemove(f: seq<Order>, i: nat, loc: Locator, nodes: map<nat, RestingOrder>)
    requires Located(f, loc, nodes) && i < |f| && UniqueIds(f) && f[i].id in loc
    ensures Located(RemoveAt(f, i), loc - {f[i].id}, nodes - {loc[f[i].id].it})
  {
    hide UniqueIds;
    var g, id := RemoveAt(f, i), f[i].id;
    forall o ensures o in g <==> o in f && o.id != id { InRemoved(f, i, o); }
    assert f[i] in f;
    var loc' := loc - {id};
    assert forall x :: x in f ==> x.id in Ids(f);
    assert forall x :: x in Ids(g) <==> x in Ids(f) && x != id;
    assert loc'.Keys == Ids(g);
  }

  lemma InUpdated(f: seq<Order>, i: nat, o: Order, x: Order)
    requires i < |f| && UniqueIds(f) && o.id == f[i].id
    ensures x in f[i := o] <==> x == o || (x in f && x.id != o.id)
  {
    var g := f[i := o];
    assert g[i] == o;
    if x in g {
      var k :| 0 <= k < |g| && g[k] == x;
    }
    if x in f && x.id != o.id {
      var k :| 0 <= k < |f| && f[k] == x;
      assert g[k] == x;
    }
  }

  lemma LocatedReduce(f: seq<Order>, i: nat, qty: nat, loc: Locator, nodes: map<nat, RestingOrder>)
    requires Located(f, loc, nodes) && i < |f| && UniqueIds(f) && f[i].id in loc
    ensures Located(f[i := f[i].(quantity := qty)], loc, nodes[loc[f[i].id].it := RestingOrder(f[i].id, qty)])
  {
    hide UniqueIds;
    var o := f[i].(quantity := qty);
    var g := f[i := o];
    forall x ensures x in g <==> x == o || (x in f && x.id != o.id) { InUpdated(f, i, o, x); }
    assert f[i] in f;
    assert forall x :: x in f ==> x.id in Ids(f);
    assert forall x :: x in Ids(g) <==> x in Ids(f);
  }

  lemma RepresentsAppend(f: seq<Order>, bids: LevelMap, asks: LevelMap, loc: Locator,
                         nodes: map<nat, RestingOrder>, o: Order, it: nat)
    requires Represents(f, bids, asks, loc, nodes) && it !in nodes && o.id !in loc
    ensures Represents(f + [o],
      if o.side == BUY then Inserted(bids, o.price, it, o.quantity) else bids,
      if o.side != BUY then Inserted(asks, o.price, it, o.quantity) else asks,
      loc[o.id := OrderLocation(o.side, o.price, it)], nodes[it := RestingOrder(o.id, o.quantity)])
  {
    hide IsLevels, Inserted;
    var loc' := loc[o.id := OrderLocation(o.side, o.price, it)];
    LocatedAppend(f, loc, nodes, o, it);
    assert forall x :: x in f ==> x.id in Ids(f);
    LevelsAgree(bids, f, true, loc, loc');
    LevelsAgree(asks, f, false, loc, loc');
    LevelsAfterAppend(bids, f, o, true, loc');
    LevelsAfterAppend(asks, f, o, false, loc');
  }

  lemma RepresentsRemove(f: seq<Order>, bids: LevelMap, asks: LevelMap, loc: Locator,
                         nodes: map<nat, RestingOrder>, i: nat)
    requires Represents(f, bids, asks, loc, nodes) && i < |f| && UniqueIds(f) && f[i].id in loc
    ensures Represents(RemoveAt(f, i),
      if f[i].side == BUY then Erased(bids, f[i].price, loc[f[i].id].it, f[i].quantity) else bids,
      if f[i].side != BUY then Erased(asks, f[i].price, loc[f[i].id].it, f[i].quantity) else asks,
      loc - {f[i].id}, nodes - {loc[f[i].id].it})
  {
    hide IsLevels, Erased, Injective, UniqueIds, RemoveAt;
    var g, id := RemoveAt(f, i), f[i].id;
    LocatedIsInjective(f, loc, nodes);
    LocatedRemove(f, i, loc, nodes);
    LevelsAfterRemove(bids, f, i, true, loc);
    LevelsAfterRemove(asks, f, i, false, loc);
    forall o ensures o in g <==> o in f && o.id != id { InRemoved(f, i, o); }
    LevelsAgree(if f[i].side == BUY then Erased(bids, f[i].price, loc[id].it, f[i].quantity) else bids,
                g, true, loc, loc - {id});
    LevelsAgree(if f[i].side != BUY then Erased(asks, f[i].price, loc[id].it, f[i].quantity) else asks,
                g, false, loc, loc - {id});
  }

  lemma RepresentsReduce(f: seq<Order>, bids: LevelMap, asks: LevelMap, loc: Locator,
                         nodes: map<nat, RestingOrder>, i: nat, qty: nat)
    requires Represents(f, bids, asks, loc, nodes) && i < |f| && UniqueIds(f) && f[i].id in loc && qty <= f[i].quantity
    ensures Represents(f[i := f[i].(quantity := qty)],
      if f[i].side == BUY then Reduced(bids, f[i].price, f[i].quantity - qty) else bids,
      if f[i].side != BUY then Reduced(asks, f[i].price, f[i].quantity - qty) else asks,
      loc, nodes[loc[f[i].id].it := RestingOrder(f[i].id, qty)])
  {
    hide IsLevels, Reduced, UniqueIds;
    LocatedReduce(f, i, qty, loc, nodes);
    LevelsAfterReduce(bids, f, i, qty, true, loc);
    LevelsAfterReduce(asks, f, i, qty, false, loc);
  }

  /** The flat position behind a locator entry. */
  lemma Locate(f: seq<Order>, loc: Locator, nodes: map<nat, RestingOrder>, id: nat)
    requires Located(f, loc, nodes)
    ensures id in loc <==> Has(f, id)
    ensures id in loc ==>
      var (o, l) := (f[IndexOf(f, id)], loc[id]);
      o.id == id && l.side == o.side && l.price == o.price && l.it in nodes && nodes[l.it] == RestingOrder(id, o.quantity)
  {
    var i := IndexOf(f, id);
    if i < |f| {
      assert f[i] in f && f[i].id in Ids(f);
    }
  }

  lemma IdsAround(f: seq<Order>, i: nat)
    requires UniqueIds(f) && i < |f|
    ensures forall o :: o in f[..i] || o in f[i + 1..] ==> o in f && o.id != f[i].id
  {
  }

  /** An order stands in its level's queue exactly once. */
  lemma OnceInQueue(f: seq<Order>, i: nat, buy: bool, price: int)
    requires UniqueIds(f) && i < |f| && At(f[i], buy, price)
    ensures var (q, k) := (Queue(f, buy, price), IndexOf(Queue(f, buy, price), f[i].id));
      && k < |q| && q[k] == f[i]
      && forall j :: 0 <= j < |q| && j != k ==> q[j] in f && q[j].id != f[i].id
  {
    hide Queue, UniqueIds;
    var q := Queue(f, buy, price);
    var before, after := Queue(f[..i], buy, price), Queue(f[i + 1..], buy, price);
    QueueSplit(f, i, buy, price);
    QueueMembers(f[..i], buy, price);
    QueueMembers(f[i + 1..], buy, price);
    IdsAround(f, i);
    assert q == before + [f[i]] + after;
    forall j | 0 <= j < |q| && j != |before| ensures q[j] in f && q[j].id != f[i].id {
      assert q[j] == if j < |before| then before[j] else after[j - |before| - 1];
    }
    assert q[|before|] == f[i];
  }

  /** The locator names each live id's one position: its level exists on its side, and its handle stands
      in that level's queue where the order stands in the FIFO queue, and nowhere else. */
  lemma LocatedOnce(f: seq<Order>, bids: LevelMap, asks: LevelMap, loc: Locator, nodes: map<nat, RestingOrder>, id: nat)
    requires Represents(f, bids, asks, loc, nodes) && UniqueIds(f) && id in loc
    ensures var (l, levels) := (loc[id], if loc[id].side == BUY then bids else asks);
      && l.price in levels
      && var (handles, k) := (levels[l.price].orders, IndexOf(Queue(f, l.side == BUY, l.price), id));
         && k < |handles| && handles[k] == l.it
         && forall j :: 0 <= j < |handles| && j != k ==> handles[j] != l.it
  {
    hide Queue, Total, IndexOf, UniqueIds, Located, Injective;
    Locate(f, loc, nodes, id);
    LocatedIsInjective(f, loc, nodes);
    var l, i := loc[id], IndexOf(f, id);
    OnceInQueue(f, i, l.side == BUY, l.price);
    var q := Queue(f, l.side == BUY, l.price);
    var k := IndexOf(q, id);
    assert f[i] in f;
    forall j | 0 <= j < |q| && j != k ensures Handles(q, loc)[j] != l.it { OwnNode(f, loc, q[j], f[i]); }
  }

  lemma OwnNode(f: seq<Order>, loc: Locator, o: Order, p: Order)
    requires Injective(f, loc) && o in f && p in f && o.id != p.id && o.id in loc && p.id in loc
    ensures loc[o.id].it != loc[p.id].it
  {
  }
}
