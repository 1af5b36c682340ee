/** What a book shows, said with its orders (src/order_book.cpp:108-157, src/simulator.cpp:138-150):
    level views, best quotes and snapshots against the resting orders themselves. */
module Shown {
  import opened Protocol
  import opened Ordered
  import opened FlatBook

  /** The summed quantity of the orders of one side and price, and their number. */
  function QuantityAt(f: seq<Order>, buy: bool, price: int): nat {
    if f == [] then 0
    else (if (f[0].side == 0) == buy && f[0].price == price then f[0].quantity else 0) + QuantityAt(f[1..], buy, price)
  }

  function OrdersAt(f: seq<Order>, buy: bool, price: int): nat {
    if f == [] then 0
    else (if (f[0].side == 0) == buy && f[0].price == price then 1 else 0) + OrdersAt(f[1..], buy, price)
  }

  lemma {:induction false} QueueInOrders(f: seq<Order>, buy: bool, price: int)
    ensures Total(Queue(f, buy, price)) == QuantityAt(f, buy, price) && |Queue(f, buy, price)| == OrdersAt(f, buy, price)
  {
    hide Queue, Total;
    QueueUnfolds(f, buy, price);
    if f == [] {
      NoTotal();
    } else {
      QueueInOrders(f[1..], buy, price);
      TotalConcat(Only(f[0], buy, price), Queue(f[1..], buy, price));
      OneTotal(f[0]);
      NoTotal();
    }
  }

  lemma NoTotal()
    ensures Total([]) == 0
  {
  }

  lemma OneTotal(o: Order)
    ensures Total([o]) == o.quantity
  {
    assert [o][1..] == [];
  }

  /** `ps` are the best `n` of the prices in `all`, best first: highest for bids, lowest for asks. A price is
      left out only when `n` better ones are there. */
  ghost predicate BestFirst(ps: seq<int>, all: set<int>, buy: bool, n: nat) {
    && |ps| <= n
    && (forall i :: 0 <= i < |ps| ==> ps[i] in all)
    && (forall i, j :: 0 <= i < j < |ps| ==> if buy then ps[i] > ps[j] else ps[i] < ps[j])
    && (forall p :: p in all && p !in ps ==>
          |ps| == n && forall i :: 0 <= i < |ps| ==> if buy then p < ps[i] else ps[i] < p)
  }

  /** The prices at which one side has orders. */
  ghost function OrderPrices(f: seq<Order>, buy: bool): set<int> {
    set o | o in f && (o.side == 0) == buy :: o.price
  }

  lemma PricesInOrders(f: seq<Order>, buy: bool)
    ensures Prices(f, buy) == OrderPrices(f, buy)
  {
  }

  lemma TopAreBest(buy: bool, all: set<int>, n: nat)
    ensures BestFirst(TopKeys(buy, all, n), all, buy, n)
  {
    hide TopKeys;
    TopKeysBestFirst(buy, all, n);
    var ps := TopKeys(buy, all, n);
    forall p | p in all && p !in ps ensures |ps| == n { AllListed(ps, all, p); }
  }

  /** A list of distinct members that misses one is shorter than the set. */
  lemma {:induction false} AllListed(ps: seq<int>, all: set<int>, p: int)
    requires p in all && p !in ps
    requires forall i :: 0 <= i < |ps| ==> ps[i] in all
    requires forall i, j :: 0 <= i < j < |ps| ==> ps[i] != ps[j]
    ensures |ps| < |all|
    decreases |ps|
  {
    if ps == [] {
      assert all != {};
    } else {
      var rest, less := ps[1..], all - {ps[0]};
      forall i | 0 <= i < |rest| ensures rest[i] in less { assert rest[i] == ps[i + 1]; }
      AllListed(rest, less, p);
    }
  }

  // ---- Views ----

  /** The first `depth` levels of one side as `bids(depth)` and `asks(depth)` show them. */
  ghost predicate ShowsViews(views: seq<LevelView>, f: seq<Order>, buy: bool, depth: nat) {
    && BestFirst(seq(|views|, i requires 0 <= i < |views| => views[i].price), OrderPrices(f, buy), buy, depth)
    && forall i :: 0 <= i < |views| ==>
         && views[i].quantity == QuantityAt(f, buy, views[i].price) % 4294967296
         && views[i].orderCount == OrdersAt(f, buy, views[i].price) % 4294967296
  }

  lemma {:induction false} ViewIs(f: seq<Order>, buy: bool, ps: seq<int>, i: nat)
    requires i < |ps|
    ensures Views(f, buy, ps)[i]
         == LevelView(ps[i], QuantityAt(f, buy, ps[i]) % 4294967296, OrdersAt(f, buy, ps[i]) % 4294967296)
  {
    hide Queue, Total, QuantityAt, OrdersAt;
    if i < |ps| - 1 {
      ViewIs(f, buy, ps[..|ps| - 1], i);
    } else {
      QueueInOrders(f, buy, ps[i]);
    }
  }

  lemma TopLevelsShow(f: seq<Order>, buy: bool, depth: nat)
    ensures ShowsViews(TopLevels(f, buy, depth), f, buy, depth)
  {
    hide Views, QuantityAt, OrdersAt, TopKeys, BestFirst, Prices;
    var ps := TopKeys(buy, Prices(f, buy), depth);
    var views := TopLevels(f, buy, depth);
    PricesInOrders(f, buy);
    TopAreBest(buy, Prices(f, buy), depth);
    forall i | 0 <= i < |views| { ViewIs(f, buy, ps, i); }
    assert seq(|views|, i requires 0 <= i < |views| => views[i].price) == ps;
  }

  /** `best_bid` and `best_ask`: nothing for an empty side, else its best level. */
  ghost predicate ShowsBest(best: Option<LevelView>, f: seq<Order>, buy: bool) {
    ShowsViews(if best.None? then [] else [best.value], f, buy, 1)
  }

  lemma BestShows(f: seq<Order>, buy: bool)
    ensures ShowsBest(Best(f, buy), f, buy)
  {
    hide Queue, Total, QuantityAt, OrdersAt;
    PricesInOrders(f, buy);
    var b := Best(f, buy);
    if b.Some? {
      var v := b.value;
      QueueInOrders(f, buy, v.price);
      assert seq(|[v]|, i requires 0 <= i < |[v]| => [v][i].price) == [v.price];
    }
  }

  // ---- Snapshots ----

  /** One side of a snapshot against aggregate depth: the best five levels, best first, and zeros behind. */
  ghost predicate ShowsDepth(levels: seq<SnapshotLevel>, count: nat, depth: map<int, nat>, buy: bool) {
    && |levels| == 5 && count <= 5
    && BestFirst(seq(count, i requires 0 <= i < count => if i < |levels| then levels[i].price else 0), depth.Keys, buy, 5)
    && (forall i :: 0 <= i < count ==> levels[i].price in depth && levels[i].quantity == depth[levels[i].price])
    && (forall i :: count <= i < 5 ==> levels[i] == SnapshotLevel(0, 0))
  }

  /** The same against orders. */
  ghost predicate ShowsOrders(levels: seq<SnapshotLevel>, count: nat, f: seq<Order>, buy: bool) {
    && |levels| == 5 && count <= 5
    && BestFirst(seq(count, i requires 0 <= i < count => if i < |levels| then levels[i].price else 0),
                 OrderPrices(f, buy), buy, 5)
    && (forall i :: 0 <= i < count ==> levels[i].quantity == QuantityAt(f, buy, levels[i].price) % 4294967296)
    && (forall i :: count <= i < 5 ==> levels[i] == SnapshotLevel(0, 0))
  }

  /** A snapshot of a book: its bids on the bid side, its asks on the ask side. */
  ghost predicate ShowsBook(b: Body, symbol: nat, f: seq<Order>) {
    && b.BookSnapshot? && b.symbol == symbol
    && ShowsOrders(b.bids, b.numBidLevels, f, true) && ShowsOrders(b.asks, b.numAskLevels, f, false)
  }

  /** A snapshot of two depth maps. */
  ghost predicate ShowsMaps(b: Body, symbol: nat, bids: map<int, nat>, asks: map<int, nat>) {
    && b.BookSnapshot? && b.symbol == symbol
    && ShowsDepth(b.bids, b.numBidLevels, bids, true) && ShowsDepth(b.asks, b.numAskLevels, asks, false)
  }

  lemma SideShows(depth: map<int, nat>, buy: bool)
    ensures var s := SnapshotSide(depth, buy);
      |s| <= MAX_SNAPSHOT_LEVELS && ShowsDepth(ZeroFilled(s), |s|, depth, buy)
  {
    hide TopKeys, Entries, BestFirst;
    var ps := TopKeys(buy, depth.Keys, 5);
    var s := SnapshotSide(depth, buy);
    TopAreBest(buy, depth.Keys, 5);
    forall i | 0 <= i < |s| ensures s[i] == SnapshotLevel(ps[i], depth[ps[i]]) && ps[i] in depth {
      EntryIs(depth, ps, i);
      assert ps[i] in ps;
    }
    var levels := ZeroFilled(s);
    assert seq(|s|, i requires 0 <= i < |s| => if i < |levels| then levels[i].price else 0) == ps;
  }

  lemma MapsShown(symbol: nat, bids: map<int, nat>, asks: map<int, nat>)
    ensures ShowsMaps(SnapshotOf(symbol, bids, asks), symbol, bids, asks)
  {
    hide SnapshotSide, ShowsDepth;
    SideShows(bids, true);
    SideShows(asks, false);
  }

  lemma DepthInOrders(f: seq<Order>, buy: bool, levels: seq<SnapshotLevel>, count: nat)
    requires ShowsDepth(levels, count, Depth(f, buy), buy)
    ensures ShowsOrders(levels, count, f, buy)
  {
    hide Queue, Total, QuantityAt, BestFirst;
    PricesInOrders(f, buy);
    assert Depth(f, buy).Keys == Prices(f, buy);
    forall i | 0 <= i < count ensures levels[i].quantity == QuantityAt(f, buy, levels[i].price) % 4294967296 {
      QueueInOrders(f, buy, levels[i].price);
    }
  }

  /** The snapshot of a book's depth is a snapshot of its orders. */
  lemma BookShown(symbol: nat, f: seq<Order>)
    ensures ShowsBook(SnapshotOf(symbol, Depth(f, true), Depth(f, false)), symbol, f)
  {
    hide Depth, ShowsDepth, ShowsOrders, SnapshotOf;
    var b := SnapshotOf(symbol, Depth(f, true), Depth(f, false));
    MapsShown(symbol, Depth(f, true), Depth(f, false));
    DepthInOrders(f, true, b.bids, b.numBidLevels);
    DepthInOrders(f, false, b.asks, b.numAskLevels);
  }
}
