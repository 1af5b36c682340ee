/** The order book of one symbol (include/mdfh/order_book.hpp, src/order_book.cpp). Every mutation
    takes the flat list to `FlatBook.Apply` of it and returns what `Apply` returns; every query reads
    that list. */
module OrderBooks {
  import opened Protocol
  import opened Ordered
  import opened FlatBook
  import opened BookLevels
  import opened Shown

  lemma KeepsValid(f: seq<Order>, i: nat, o: Order)
    requires ValidFlat(f) && i < |f| && o.id == f[i].id && o.quantity > 0
    ensures ValidFlat(RemoveAt(f, i)) && ValidFlat(RemoveAt(f, i) + [o])
  {
    forall x | x in RemoveAt(f, i) ensures x in f && x.id != o.id { InRemoved(f, i, x); }
    var g := RemoveAt(f, i) + [o];
    assert forall k :: 0 <= k < |f| - 1 ==> g[k] in RemoveAt(f, i);
  }

  class OrderBook {
    const symbol: nat
    var bids: LevelMap
    var asks: LevelMap
    var orders: Locator
    var nodes: map<nat, RestingOrder>
    var nextNode: nat
    ghost var flat: seq<Order>

    ghost predicate Valid()
      reads this
    {
      && ValidFlat(flat)
      && Represents(flat, bids, asks, orders, nodes)
      && forall it :: it in nodes ==> it < nextNode
    }

    constructor (symbol: nat)
      ensures Valid() && flat == [] && this.symbol == symbol
    {
      this.symbol := symbol;
      bids, asks, orders, nodes, nextNode := map[], map[], map[], map[], 0;
      flat := [];
    }

    /** Appends a new node to the level's queue, creating the level if necessary. */
    method InsertOrder(buy: bool, price: int, id: nat, qty: nat) returns (it: nat)
      modifies this`bids, this`asks, this`nodes, this`nextNode
      ensures it == old(nextNode) && nextNode == it + 1
      ensures nodes == old(nodes)[it := RestingOrder(id, qty)]
      ensures bids == if buy then Inserted(old(bids), price, it, qty) else old(bids)
      ensures asks == if buy then old(asks) else Inserted(old(asks), price, it, qty)
    {
      var m := if buy then bids else asks;
      it := nextNode;
      nextNode := nextNode + 1;
      nodes := nodes[it := RestingOrder(id, qty)];
      if price !in m {
        m := m[price := PriceLevel(price, 0, [])];
      }
      var level := m[price];
      m := m[price := level.(total := (level.total + qty) % TWO32, orders := level.orders + [it])];
      if buy { bids := m; } else { asks := m; }
    }

    /** Takes one node out of its level, and the level out of the map if that leaves it empty. */
    method EraseOrder(buy: bool, price: int, it: nat)
      requires it in nodes
      modifies this`bids, this`asks, this`nodes
      ensures nodes == old(nodes) - {it}
      ensures bids == if buy then Erased(old(bids), price, it, old(nodes)[it].quantity) else old(bids)
      ensures asks == if buy then old(asks) else Erased(old(asks), price, it, old(nodes)[it].quantity)
    {
      var m := if buy then bids else asks;
      if price in m {
        var level := m[price];
        level := level.(total := (level.total - nodes[it].quantity) % TWO32);
        level := level.(orders := Unlinked(level.orders, it));
        m := if level.orders == [] then m - {price} else m[price := level];
      }
      nodes := nodes - {it};
      if buy { bids := m; } else { asks := m; }
    }

    /** Lowers an order's quantity, and its level's total with it, in place. */
    method ReduceOrder(buy: bool, price: int, it: nat, delta: nat)
      requires it in nodes && delta <= nodes[it].quantity && price in (if buy then bids else asks)
      modifies this`bids, this`asks, this`nodes
      ensures nodes == old(nodes)[it := RestingOrder(old(nodes)[it].id, old(nodes)[it].quantity - delta)]
      ensures bids == if buy then Reduced(old(bids), price, delta) else old(bids)
      ensures asks == if buy then old(asks) else Reduced(old(asks), price, delta)
    {
      nodes := nodes[it := RestingOrder(nodes[it].id, nodes[it].quantity - delta)];
      if buy {
        bids := bids[price := bids[price].(total := (bids[price].total - delta) % TWO32)];
      } else {
        asks := asks[price := asks[price].(total := (asks[price].total - delta) % TWO32)];
      }
    }

    lemma Find(id: nat)
      requires Valid()
      ensures id in orders <==> Has(flat, id)
      ensures id in orders ==>
        var (o, l) := (flat[IndexOf(flat, id)], orders[id]);
        o.id == id && l.side == o.side && l.price == o.price
        && l.it in nodes && nodes[l.it] == RestingOrder(id, o.quantity)
    {
      Locate(flat, orders, nodes, id);
    }

    lemma LevelPresent(id: nat)
      requires Valid() && Has(flat, id) && id in orders
      ensures orders[id].price in (if orders[id].side == BUY then bids else asks)
    {
      hide Queue, Located, UniqueIds;
      Find(id);
      var i := IndexOf(flat, id);
      QueueSplit(flat, i, flat[i].side == BUY, flat[i].price);
    }

    method Add(id: nat, side: nat, price: int, qty: nat) returns (ok: bool)
      requires Valid()
      modifies this
      ensures Valid() && (flat, ok) == Apply(old(flat), Op.Add(id, side, price, qty))
    {
      hide Represents, Inserted;
      Find(id);
      if qty == 0 { return false; }
      if id in orders { return false; }
      ghost var o := Order(id, side, price, qty);
      RepresentsAppend(flat, bids, asks, orders, nodes, o, nextNode);
      ApplyKeepsValid(flat, Op.Add(id, side, price, qty));
      var it := InsertOrder(side == BUY, price, id, qty);
      orders := orders[id := OrderLocation(side, price, it)];
      flat := flat + [o];
      ok := true;
    }

    method Cancel(id: nat) returns (ok: bool)
      requires Valid()
      modifies this
      ensures Valid() && (flat, ok) == Apply(old(flat), Op.Cancel(id))
    {
      hide Represents, Erased;
      Find(id);
      if id !in orders { return false; }
      ghost var i := IndexOf(flat, id);
      RepresentsRemove(flat, bids, asks, orders, nodes, i);
      ApplyKeepsValid(flat, Op.Cancel(id));
      var loc := orders[id];
      EraseOrder(loc.side == BUY, loc.price, loc.it);
      orders := orders - {id};
      flat := RemoveAt(flat, i);
      ok := true;
    }

    method Modify(id: nat, newPrice: int, newQty: nat) returns (ok: bool)
      requires Valid()
      modifies this
      ensures Valid() && (flat, ok) == Apply(old(flat), Op.Modify(id, newPrice, newQty))
    {
      hide Represents, ValidFlat;
      if newQty == 0 {
        ok := Cancel(id);
        return;
      }
      Find(id);
      if id !in orders { return false; }
      var loc := orders[id];
      var oldQty := nodes[loc.it].quantity;
      if newPrice == loc.price && newQty <= oldQty {
        Shrink(id, oldQty - newQty);
      } else {
        Requeue(id, newPrice, newQty);
      }
      ok := true;
    }

    /** The in-place branch of `Modify` and the partial fill of `Execute`. */
    method Shrink(id: nat, delta: nat)
      requires Valid() && Has(flat, id) && id in orders
      requires var i := IndexOf(flat, id); delta < flat[i].quantity
      modifies this`bids, this`asks, this`nodes, this`flat
      ensures var i := IndexOf(old(flat), id);
        Valid() && flat == old(flat)[i := old(flat)[i].(quantity := old(flat)[i].quantity - delta)]
    {
      hide Represents, Reduced;
      Find(id);
      LevelPresent(id);
      ghost var i := IndexOf(flat, id);
      ghost var qty := flat[i].quantity - delta;
      RepresentsReduce(flat, bids, asks, orders, nodes, i, qty);
      ApplyKeepsValid(flat, Op.Execute(id, delta));
      var loc := orders[id];
      ReduceOrder(loc.side == BUY, loc.price, loc.it, delta);
      flat := flat[i := flat[i].(quantity := qty)];
    }

    /** The branch of `Modify` that loses priority. */
    method Requeue(id: nat, newPrice: int, newQty: nat)
      requires Valid() && Has(flat, id) && id in orders && newQty > 0
      modifies this
      ensures var i := IndexOf(old(flat), id);
        Valid() && flat == RemoveAt(old(flat), i) + [Order(id, old(flat)[i].side, newPrice, newQty)]
    {
      hide Represents, Erased, Inserted;
      Find(id);
      ghost var i := IndexOf(flat, id);
      ghost var o := Order(id, flat[i].side, newPrice, newQty);
      KeepsValid(flat, i, o);
      RepresentsRemove(flat, bids, asks, orders, nodes, i);
      var loc := orders[id];
      EraseOrder(loc.side == BUY, loc.price, loc.it);
      RepresentsAppend(RemoveAt(flat, i), bids, asks, orders - {id}, nodes, o, nextNode);
      var it := InsertOrder(loc.side == BUY, newPrice, id, newQty);
      assert (orders - {id})[id := OrderLocation(loc.side, newPrice, it)]
          == orders[id := OrderLocation(loc.side, newPrice, it)];
      orders := orders[id := OrderLocation(loc.side, newPrice, it)];
      flat := RemoveAt(flat, i) + [o];
    }

    /** A full fill first takes the quantity off the order and its level, then erases an empty node. */
    method Execute(restingId: nat, qty: nat) returns (ok: bool)
      requires Valid()
      modifies this
      ensures Valid() && (flat, ok) == Apply(old(flat), Op.Execute(restingId, qty))
    {
      hide Represents, ValidFlat;
      Find(restingId);
      if restingId !in orders { return false; }
      var it := orders[restingId].it;
      var fill := Min(qty, nodes[it].quantity);
      if nodes[it].quantity - fill == 0 {
        FillWhole(restingId);
      } else {
        Shrink(restingId, fill);
      }
      ok := true;
    }

    method FillWhole(id: nat)
      requires Valid() && Has(flat, id) && id in orders
      modifies this
      ensures Valid() && flat == RemoveAt(old(flat), IndexOf(old(flat), id))
    {
      hide Represents, Erased, Reduced;
      Find(id);
      LevelPresent(id);
      ghost var i := IndexOf(flat, id);
      ghost var g := flat[i := flat[i].(quantity := 0)];
      RepresentsReduce(flat, bids, asks, orders, nodes, i, 0);
      ApplyKeepsValid(flat, Op.Cancel(id));
      assert RemoveAt(g, i) == RemoveAt(flat, i);
      var loc := orders[id];
      ReduceOrder(loc.side == BUY, loc.price, loc.it, nodes[loc.it].quantity);
      RepresentsRemove(g, bids, asks, orders, nodes, i);
      EraseOrder(loc.side == BUY, loc.price, loc.it);
      orders := orders - {id};
      flat := RemoveAt(flat, i);
    }

    method Clear()
      modifies this`bids, this`asks, this`orders, this`nodes, this`flat
      ensures Valid() && flat == []
    {
      bids, asks, orders, nodes := map[], map[], map[], map[];
      flat := [];
    }

    // ---- Queries ----

    lemma Keys(buy: bool)
      requires Valid()
      ensures (if buy then bids else asks).Keys == Prices(flat, buy)
      ensures forall p :: p in Prices(flat, buy) ==> (if buy then bids else asks)[p] == LevelAt(flat, buy, p, orders)
    {
      hide Queue, Located, UniqueIds, Handles, Total;
      forall p ensures p in Prices(flat, buy) <==> Queue(flat, buy, p) != [] { PricesAreQueues(flat, buy, p); }
      assert forall p :: p in (if buy then bids else asks) <==> p in Prices(flat, buy);
    }

    method View(buy: bool, price: int) returns (v: LevelView)
      requires Valid() && price in Prices(flat, buy) && price in (if buy then bids else asks)
      ensures v == ViewOf(flat, buy, price)
    {
      Keys(buy);
      var level := if buy then bids[price] else asks[price];
      v := LevelView(level.price, level.total, |level.orders| % TWO32);
    }

    /** `best_bid` and `best_ask`: the level at `begin()`, if any. */
    method BestLevel(buy: bool) returns (r: Option<LevelView>)
      requires Valid()
      ensures r == Best(flat, buy) && ShowsBest(r, flat, buy)
    {
      hide ShowsBest;
      BestShows(flat, buy);
      Keys(buy);
      var m := if buy then bids else asks;
      if m.Keys == {} { return None; }
      var v := View(buy, BestOf(buy, m.Keys));
      r := Some(v);
    }

    /** `bids` and `asks`: walks the map best first and stops at `depth` levels. */
    method Levels(buy: bool, depth: nat) returns (out: seq<LevelView>)
      requires Valid()
      ensures out == TopLevels(flat, buy, depth) && ShowsViews(out, flat, buy, depth)
    {
      hide TopKeys, ValidFlat, Represents, ViewOf, Prices, ShowsViews;
      TopLevelsShow(flat, buy, depth);
      Keys(buy);
      out := [];
      ghost var done: seq<int> := [];
      ghost var all := Prices(flat, buy);
      var rest := (if buy then bids else asks).Keys;
      while rest != {}
        invariant |done| <= depth && rest <= all
        invariant done + TopKeys(buy, rest, depth - |done|) == TopKeys(buy, all, depth)
        invariant out == Views(flat, buy, done)
        decreases |rest|
      {
        if |out| >= depth { break; }
        TopKeysStep(buy, all, depth, done, rest);
        var price := BestOf(buy, rest);
        var v := View(buy, price);
        assert (done + [price])[..|done|] == done;
        out, done := out + [v], done + [price];
        rest := rest - {price};
      }
      TopKeysEnd(buy, all, depth, done, rest);
    }

    method Snapshot() returns (s: Body)
      requires Valid()
      ensures s == SnapshotOf(symbol, Depth(flat, true), Depth(flat, false)) && ShowsBook(s, symbol, flat)
    {
      hide TopLevels, ValidFlat, Represents, SnapshotSide, ShowsViews, ShowsBook;
      BookShown(symbol, flat);
      var b := Levels(true, MAX_SNAPSHOT_LEVELS);
      var a := Levels(false, MAX_SNAPSHOT_LEVELS);
      var bidSide := FillSide(true, b);
      var askSide := FillSide(false, a);
      s := BookSnapshot(symbol, |b|, |a|, bidSide, askSide);
    }

    /** Copies price and quantity of the views into the zero-filled levels of a snapshot. */
    method FillSide(buy: bool, views: seq<LevelView>) returns (levels: seq<SnapshotLevel>)
      requires views == TopLevels(flat, buy, MAX_SNAPSHOT_LEVELS)
      ensures |SnapshotSide(Depth(flat, buy), buy)| == |views|
      ensures levels == ZeroFilled(SnapshotSide(Depth(flat, buy), buy))
    {
      hide TopKeys, Views, Entries, Prices;
      assert Depth(flat, buy).Keys == Prices(flat, buy);
      ghost var ps := TopKeys(buy, Prices(flat, buy), MAX_SNAPSHOT_LEVELS);
      ghost var es := Entries(Depth(flat, buy), ps);
      levels := seq(MAX_SNAPSHOT_LEVELS, _ => SnapshotLevel(0, 0));
      var i := 0;
      while i < |views|
        invariant 0 <= i <= |views| && |levels| == MAX_SNAPSHOT_LEVELS
        invariant forall k :: 0 <= k < i ==> levels[k] == es[k]
        invariant forall k :: i <= k < MAX_SNAPSHOT_LEVELS ==> levels[k] == SnapshotLevel(0, 0)
      {
        EntriesOfViews(flat, buy, ps, i);
        levels := levels[i := SnapshotLevel(views[i].price, views[i].quantity)];
        i := i + 1;
      }
    }

    lemma LevelNodes(buy: bool, price: int)
      requires Valid() && price in Prices(flat, buy)
      ensures price in (if buy then bids else asks)
      ensures var level := (if buy then bids else asks)[price];
        && level.price == price && level.orders != []
        && |level.orders| == |Queue(flat, buy, price)|
        && level.total == Total(Queue(flat, buy, price)) % TWO32
        && forall k :: 0 <= k < |level.orders| ==>
             level.orders[k] in nodes && nodes[level.orders[k]].quantity == Queue(flat, buy, price)[k].quantity > 0
    {
      hide Queue, Total, UniqueIds;
      Keys(buy);
      PricesAreQueues(flat, buy, price);
      QueueMembers(flat, buy, price);
      var q := Queue(flat, buy, price);
      forall k | 0 <= k < |q|
        ensures var it := Handles(q, orders)[k];
          it in nodes && nodes[it].quantity == q[k].quantity > 0
      {
        assert q[k] in q && q[k] in flat && q[k].id in Ids(flat);
      }
    }

    /** The per-level clauses of `check_invariants`; a `return false` of the source is `ok := false`. */
    method LevelOk(buy: bool, price: int) returns (ok: bool)
      requires Valid() && price in Prices(flat, buy) && price in (if buy then bids else asks)
      ensures ok
    {
      hide Queue, ValidFlat, Represents;
      LevelNodes(buy, price);
      ghost var q := Queue(flat, buy, price);
      var level := (if buy then bids else asks)[price];
      ok := level.orders != [] && level.price == price;
      var sum, k := 0, 0;
      while k < |level.orders| && ok
        invariant ok && 0 <= k <= |level.orders| && sum == Total(q[..k]) % TWO32
      {
        TotalOfNext(q, k);
        ModAdd(Total(q[..k]), q[k].quantity);
        ok := nodes[level.orders[k]].quantity != 0;
        sum := (sum + nodes[level.orders[k]].quantity) % TWO32;
        k := k + 1;
      }
      assert q[..k] == q;
      ok := ok && sum == level.total;
    }

    method SideOk(buy: bool) returns (ok: bool)
      requires Valid()
      ensures ok
    {
      hide ValidFlat, Represents;
      Keys(buy);
      var rest := (if buy then bids else asks).Keys;
      ok := true;
      while rest != {} && ok
        invariant ok && rest <= Prices(flat, buy)
        decreases |rest|
      {
        var price := BestOf(buy, rest);
        ok := LevelOk(buy, price);
        rest := rest - {price};
      }
    }

    method CountSide(buy: bool) returns (counted: nat)
      requires Valid()
      ensures counted == CountIn(flat, buy, Prices(flat, buy))
    {
      hide ValidFlat, Represents, Prices, CountIn, Queue;
      Keys(buy);
      var rest := (if buy then bids else asks).Keys;
      counted := 0;
      while rest != {}
        invariant rest <= Prices(flat, buy)
        invariant counted + CountIn(flat, buy, rest) == CountIn(flat, buy, Prices(flat, buy))
        decreases |rest|
      {
        var price := BestOf(buy, rest);
        LevelNodes(buy, price);
        CountLevel(flat, buy, rest, price);
        counted := counted + |(if buy then bids else asks)[price].orders|;
        rest := rest - {price};
      }
      CountNone(flat, buy);
    }

    /** In every reachable book all other clauses hold, wrapped level totals included, so the check
        fails exactly when the book is crossed. */
    method CheckInvariants() returns (ok: bool)
      requires Valid()
      ensures ok <==> !Crossed(flat)
    {
      hide Crossed, CountIn, IsLevels, Prices;
      Keys(true);
      Keys(false);
      CrossedAtTheTop(flat);
      var bidsOk := SideOk(true);
      var asksOk := SideOk(false);
      if !(bidsOk && asksOk) { return false; }
      if bids.Keys != {} && asks.Keys != {} {
        if bids[BestOf(true, bids.Keys)].price >= asks[BestOf(false, asks.Keys)].price { return false; }
      }
      var counted := CountSide(true);
      var more := CountSide(false);
      OrderCount();
      ok := counted + more == |orders|;
    }

    lemma OrderCount()
      requires Valid()
      ensures CountIn(flat, true, Prices(flat, true)) + CountIn(flat, false, Prices(flat, false)) == |orders|
    {
      hide IsLevels, CountIn;
      CountAll(flat, Prices(flat, true), Prices(flat, false));
      CountIds(flat, Ids(flat));
      assert |orders| == |orders.Keys|;
    }
  }
}
