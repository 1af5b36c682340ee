/** What every reachable state of the feed generator satisfies (src/simulator.cpp): it mirrors the book
    its own messages build, its depth maps are exact, and that book is never crossed. */
module SimulatorLaws {
  import opened Protocol
  import opened Ordered
  import opened FlatBook
  import opened BookBuilding
  import opened Shown
  import opened Simulators

  // ---- Depth ----

  /** The depth of `f`, exact: no level's sum has wrapped. */
  ghost predicate ExactDepth(m: map<int, nat>, f: seq<Order>, buy: bool) {
    forall p :: (p in m <==> Queue(f, buy, p) != []) && (p in m ==> m[p] == Total(Queue(f, buy, p)) < TWO32)
  }

  lemma ExactIsDepth(m: map<int, nat>, f: seq<Order>, buy: bool)
    requires ExactDepth(m, f, buy)
    ensures IsDepth(m, f, buy) && m == Depth(f, buy)
  {
    hide Queue, Total, Depth;
    IsDepthIffEqual(m, f, buy);
  }

  lemma ExactKeys(m: map<int, nat>, f: seq<Order>, buy: bool)
    requires ExactDepth(m, f, buy)
    ensures m.Keys == Prices(f, buy)
  {
    hide Queue, Total, Prices;
    forall p ensures p in m.Keys <==> p in Prices(f, buy) { PricesAreQueues(f, buy, p); }
  }

  ghost predicate Sized(f: seq<Order>, maxQty: nat) {
    forall o :: o in f ==> 0 < o.quantity <= maxQty
  }

  lemma {:induction false} TotalBound(f: seq<Order>, buy: bool, p: int, maxQty: nat)
    requires Sized(f, maxQty)
    ensures Total(Queue(f, buy, p)) <= |f| * maxQty
    ensures Queue(f, buy, p) != [] ==> Total(Queue(f, buy, p)) > 0
  {
    hide Queue, Total;
    QueueUnfolds(f, buy, p);
    if f == [] {
      TotalOfNone();
    } else {
      assert f[0] in f && forall o :: o in f[1..] ==> o in f;
      TotalBound(f[1..], buy, p, maxQty);
      TotalConcat(Only(f[0], buy, p), Queue(f[1..], buy, p));
      TotalOfOnly(f[0], buy, p);
      assert |f| * maxQty == |f[1..]| * maxQty + maxQty;
    }
  }

  lemma TotalOfNone()
    ensures Total([]) == 0
  {
  }

  lemma TotalOfOnly(o: Order, buy: bool, p: int)
    ensures Total(Only(o, buy, p)) == if At(o, buy, p) then o.quantity else 0
  {
    assert [o][1..] == [];
  }

  /** One order more or less in the list, seen from one level. */
  lemma LevelAround(f: seq<Order>, i: nat, buy: bool, p: int)
    requires i < |f|
    ensures var (all, rest, here) := (Queue(f, buy, p), Queue(RemoveAt(f, i), buy, p), At(f[i], buy, p));
      && Total(all) == Total(rest) + (if here then f[i].quantity else 0)
      && (all != [] <==> here || rest != [])
  {
    hide Queue, Total;
    var a, b := Queue(f[..i], buy, p), Queue(f[i + 1..], buy, p);
    QueueSplit(f, i, buy, p);
    QueueRemoved(f, i, buy, p);
    TotalConcat(a + Only(f[i], buy, p), b);
    TotalConcat(a, Only(f[i], buy, p));
    TotalConcat(a, b);
    TotalOfOnly(f[i], buy, p);
  }

  lemma DepthOfInsertion(m: map<int, nat>, f: seq<Order>, i: nat, buy: bool, maxQty: nat)
    requires i < |f| && ExactDepth(m, RemoveAt(f, i), buy) && Sized(f, maxQty) && |f| * maxQty < TWO32
    ensures ExactDepth(if On(f[i], buy) then DepthPlus(m, f[i].price, f[i].quantity) else m, f, buy)
  {
    hide Queue, Total, Sized;
    var n := if On(f[i], buy) then DepthPlus(m, f[i].price, f[i].quantity) else m;
    forall p ensures (p in n <==> Queue(f, buy, p) != []) && (p in n ==> n[p] == Total(Queue(f, buy, p)) < TWO32) {
      LevelAround(f, i, buy, p);
      TotalBound(f, buy, p, maxQty);
      if p !in m { EmptyTotal(RemoveAt(f, i), buy, p); }
    }
  }

  lemma EmptyTotal(f: seq<Order>, buy: bool, p: int)
    requires Queue(f, buy, p) == []
    ensures Total(Queue(f, buy, p)) == 0
  {
  }

  lemma DepthOfDeletion(m: map<int, nat>, f: seq<Order>, i: nat, buy: bool, maxQty: nat)
    requires i < |f| && ExactDepth(m, f, buy) && Sized(f, maxQty)
    ensures ExactDepth(if On(f[i], buy) then DepthMinus(m, f[i].price, f[i].quantity) else m, RemoveAt(f, i), buy)
  {
    hide Queue, Total;
    var g := RemoveAt(f, i);
    var n := if On(f[i], buy) then DepthMinus(m, f[i].price, f[i].quantity) else m;
    assert Sized(g, maxQty);
    hide Sized;
    forall p ensures (p in n <==> Queue(g, buy, p) != []) && (p in n ==> n[p] == Total(Queue(g, buy, p)) < TWO32) {
      LevelAround(f, i, buy, p);
      TotalBound(g, buy, p, maxQty);
      if Queue(g, buy, p) == [] { EmptyTotal(g, buy, p); }
    }
  }

  lemma DepthOfReduction(m: map<int, nat>, f: seq<Order>, i: nat, fill: nat, buy: bool)
    requires i < |f| && ExactDepth(m, f, buy) && fill < f[i].quantity
    ensures ExactDepth(if On(f[i], buy) then DepthMinus(m, f[i].price, fill) else m,
                       f[i := f[i].(quantity := f[i].quantity - fill)], buy)
  {
    hide Queue, Total;
    var g := f[i := f[i].(quantity := f[i].quantity - fill)];
    var n := if On(f[i], buy) then DepthMinus(m, f[i].price, fill) else m;
    assert RemoveAt(g, i) == RemoveAt(f, i);
    hide RemoveAt;
    forall p ensures (p in n <==> Queue(g, buy, p) != []) && (p in n ==> n[p] == Total(Queue(g, buy, p)) < TWO32) {
      LevelAround(f, i, buy, p);
      LevelAround(g, i, buy, p);
    }
  }

  // ---- Live orders mirror the book ----

  /** The live orders are exactly the resting orders: id, side, price and quantity. */
  ghost predicate Mirrors(orders: map<nat, LiveOrder>, f: seq<Order>) {
    && (forall o :: o in f ==> o.id in orders && orders[o.id] == LiveOrder(o.side, o.price, o.quantity))
    && (forall id :: id in orders ==> Has(f, id))
  }

  lemma MirrorsDeletion(orders: map<nat, LiveOrder>, f: seq<Order>, i: nat)
    requires i < |f| && UniqueIds(f) && Mirrors(orders, f)
    ensures Mirrors(orders - {f[i].id}, RemoveAt(f, i)) && f[i].id in orders
  {
    hide IndexOf, UniqueIds;
    RestOf(f, i);
    hide RemoveAt;
    var g := RemoveAt(f, i);
    forall id | id in orders && id != f[i].id ensures Has(g, id) {
      var k := IndexOf(f, id);
      assert f[k] in f;
      MemberIsHad(g, f[k]);
    }
  }

  lemma MirrorsInsertion(orders: map<nat, LiveOrder>, f: seq<Order>, i: nat)
    requires i < |f| && UniqueIds(f) && Mirrors(orders, RemoveAt(f, i))
    ensures Mirrors(orders[f[i].id := LiveOrder(f[i].side, f[i].price, f[i].quantity)], f)
  {
    hide IndexOf, UniqueIds;
    RestOf(f, i);
    hide RemoveAt;
    var g := RemoveAt(f, i);
    forall id | id in orders && id != f[i].id ensures Has(f, id) {
      var k := IndexOf(g, id);
      assert g[k] in g;
      MemberIsHad(f, g[k]);
    }
    MemberIsHad(f, f[i]);
  }

  // ---- Passive prices ----

  /** `o` crosses nothing in `g`. */
  ghost predicate Passive(o: Order, g: seq<Order>) {
    forall x :: x in g ==>
      (o.side == BUY && x.side != BUY ==> o.price < x.price) && (o.side != BUY && x.side == BUY ==> x.price < o.price)
  }

  /** A bid is at least one tick, an ask at least two. */
  function FloorOf(c: SimConfig, side: nat): int {
    if side == BUY then c.tick else 2 * c.tick
  }

  ghost predicate PricedWithin(c: SimConfig, f: seq<Order>, top: int) {
    forall o :: o in f ==> FloorOf(c, o.side) <= o.price <= top
  }

  lemma {:induction false} TimesMonotone(a: nat, b: nat, t: nat)
    requires a <= b
    ensures a * t <= b * t
    decreases b
  {
    if a < b {
      TimesMonotone(a, b - 1, t);
      assert b * t == (b - 1) * t + t;
    }
  }

  lemma OffsetBound(c: SimConfig, offset: nat)
    requires c.tick > 0 && offset < c.bandLevels
    ensures 0 <= offset * c.tick <= c.bandLevels * c.tick - c.tick
  {
    TimesMonotone(0, offset, c.tick);
    TimesMonotone(offset + 1, c.bandLevels, c.tick);
    assert (offset + 1) * c.tick == offset * c.tick + c.tick;
  }

  /** Whatever is drawn, the price crosses nothing that rests, and the clamp to one tick does not
      either, because no ask is below two ticks. */
  lemma ChosenPriceIsPassive(c: SimConfig, s: SymbolState, g: seq<Order>, side: nat, d: Draws, top: int)
    requires c.tick > 0 && c.bandLevels > 0 && c.tick <= s.refMid <= top
    requires s.bidQty.Keys == Prices(g, true) && s.askQty.Keys == Prices(g, false) && PricedWithin(c, g, top)
    ensures FloorOf(c, side) <= ChosenPrice(c, s, side, d) <= top + c.bandLevels * c.tick
    ensures forall o: Order :: o.side == side && o.price == ChosenPrice(c, s, side, d) ==> Passive(o, g)
  {
    OffsetBound(c, Draw(0, c.bandLevels - 1, d.offset));
    var offset := Draw(0, c.bandLevels - 1, d.offset) * c.tick;
    BestQuote(g, true);
    BestQuote(g, false);
    assert s.bidQty == map[] <==> Prices(g, true) == {};
    assert s.askQty == map[] <==> Prices(g, false) == {};
    hide Prices;
  }

  /** The prices a bid may take at most: one tick above some resting bid, when there is one; one tick below
      every ask, or below the reference price when there is none. */
  ghost predicate BidMayReach(c: SimConfig, refMid: int, g: seq<Order>, p: int) {
    && ((exists o :: o in g && o.side == 0) ==> exists o :: o in g && o.side == 0 && p <= o.price + c.tick)
    && (forall o :: o in g && o.side != 0 ==> p <= o.price - c.tick)
    && ((forall o :: o in g ==> o.side == 0) ==> p <= refMid - c.tick)
  }

  /** The prices an ask may take at least, the mirror image. */
  ghost predicate AskMayReach(c: SimConfig, refMid: int, g: seq<Order>, p: int) {
    && ((exists o :: o in g && o.side != 0) ==> exists o :: o in g && o.side != 0 && o.price - c.tick <= p)
    && (forall o :: o in g && o.side == 0 ==> o.price + c.tick <= p)
    && ((forall o :: o in g ==> o.side != 0) ==> refMid + c.tick <= p)
  }

  ghost predicate GreatestBid(c: SimConfig, refMid: int, g: seq<Order>, best: int) {
    BidMayReach(c, refMid, g, best) && forall p :: BidMayReach(c, refMid, g, p) ==> p <= best
  }

  ghost predicate LeastAsk(c: SimConfig, refMid: int, g: seq<Order>, best: int) {
    AskMayReach(c, refMid, g, best) && forall p :: AskMayReach(c, refMid, g, p) ==> best <= p
  }

  /** The price drawn `k` ticks away from the touch: for a bid, `k` ticks below the greatest it may reach, but
      never less than one tick; for an ask, `k` ticks above the least. */
  ghost predicate PricedAt(c: SimConfig, refMid: int, g: seq<Order>, side: nat, k: nat, price: int) {
    if side == 0
    then exists best :: GreatestBid(c, refMid, g, best) && price == if best - k * c.tick < c.tick then c.tick else best - k * c.tick
    else exists best :: LeastAsk(c, refMid, g, best) && price == best + k * c.tick
  }

  /** Which price is chosen, said with the orders that rest and the offset drawn. */
  lemma ChosenPriceIs(c: SimConfig, s: SymbolState, g: seq<Order>, side: nat, d: Draws)
    requires c.bandLevels > 0 && s.bidQty.Keys == Prices(g, true) && s.askQty.Keys == Prices(g, false)
    ensures PricedAt(c, s.refMid, g, side, Draw(0, c.bandLevels - 1, d.offset), ChosenPrice(c, s, side, d))
  {
    if side == 0 { ChosenBidIs(c, s, g, d); } else { ChosenAskIs(c, s, g, side, d); }
  }

  lemma ChosenBidIs(c: SimConfig, s: SymbolState, g: seq<Order>, d: Draws)
    requires c.bandLevels > 0 && s.bidQty.Keys == Prices(g, true) && s.askQty.Keys == Prices(g, false)
    ensures PricedAt(c, s.refMid, g, 0, Draw(0, c.bandLevels - 1, d.offset), ChosenPrice(c, s, 0, d))
  {
    BestQuote(g, true);
    BestQuote(g, false);
    assert s.bidQty == map[] <==> Prices(g, true) == {};
    assert s.askQty == map[] <==> Prices(g, false) == {};
    hide Prices;
    var ceiling := if s.askQty == map[] then s.refMid - c.tick else BestOf(false, s.askQty.Keys) - c.tick;
    var best := if s.bidQty == map[] then ceiling else Least(BestOf(true, s.bidQty.Keys) + c.tick, ceiling);
    assert GreatestBid(c, s.refMid, g, best);
  }

  lemma ChosenAskIs(c: SimConfig, s: SymbolState, g: seq<Order>, side: nat, d: Draws)
    requires c.bandLevels > 0 && s.bidQty.Keys == Prices(g, true) && s.askQty.Keys == Prices(g, false) && side != 0
    ensures PricedAt(c, s.refMid, g, side, Draw(0, c.bandLevels - 1, d.offset), ChosenPrice(c, s, side, d))
  {
    BestQuote(g, true);
    BestQuote(g, false);
    assert s.bidQty == map[] <==> Prices(g, true) == {};
    assert s.askQty == map[] <==> Prices(g, false) == {};
    hide Prices;
    var floor := if s.bidQty == map[] then s.refMid + c.tick else BestOf(true, s.bidQty.Keys) + c.tick;
    var best := if s.askQty == map[] then floor else Greatest(BestOf(false, s.askQty.Keys) - c.tick, floor);
    assert LeastAsk(c, s.refMid, g, best);
  }

  // ---- One symbol and the book its messages build ----

  ghost predicate OrderOk(c: SimConfig, o: Order, top: int, nextId: nat) {
    && o.side <= SELL && 0 < o.quantity <= c.maxQty && o.id < nextId
    && FloorOf(c, o.side) <= o.price <= top
  }

  /** The book: no more orders than messages, each within the configured bounds, and not crossed. */
  ghost predicate FlatOk(c: SimConfig, f: seq<Order>, n: nat, top: int, nextId: nat) {
    ValidFlat(f) && |f| <= n && (forall o :: o in f ==> OrderOk(c, o, top, nextId)) && !Crossed(f)
  }

  /** After `n` messages no price exceeds this. */
  function TopAfter(c: SimConfig, refMid: int, n: nat): int {
    refMid + n * (c.bandLevels * c.tick)
  }

  lemma TopGrows(c: SimConfig, refMid: int, n: nat)
    ensures TopAfter(c, refMid, n + 1) == TopAfter(c, refMid, n) + c.bandLevels * c.tick
  {
    var t := c.bandLevels * c.tick;
    assert (n + 1) * t == n * t + t;
  }

  /** Live orders and depth maps agree with the book. */
  ghost predicate MirrorOk(orders: map<nat, LiveOrder>, bids: map<int, nat>, asks: map<int, nat>, f: seq<Order>) {
    Mirrors(orders, f) && ExactDepth(bids, f, true) && ExactDepth(asks, f, false)
  }

  /** The generator's state of one symbol agrees with its book after `n` messages. */
  ghost predicate SymbolOk(c: SimConfig, s: SymbolState, f: seq<Order>, n: nat, nextId: nat) {
    && LiveOk(s) && c.tick <= s.refMid
    && FlatOk(c, f, n, TopAfter(c, s.refMid, n), nextId)
    && MirrorOk(s.orders, s.bidQty, s.askQty, f)
  }

  /** What the end-to-end result asks of a configuration. */
  ghost predicate GoodSim(c: SimConfig) {
    && CanDraw(c) && c.tick > 0 && c.minQty >= 1 && c.numSymbols < TWO32
    && c.numMessages * c.maxQty < TWO32 && c.tsStart < TWO64
    && forall i :: 0 <= i < c.numSymbols ==> c.tick <= RefMid(c, i) && TopAfter(c, RefMid(c, i), c.numMessages) < TWO63
  }

  lemma FlatIsSized(c: SimConfig, f: seq<Order>, n: nat, top: int, nextId: nat)
    requires FlatOk(c, f, n, top, nextId)
    ensures Sized(f, c.maxQty) && PricedWithin(c, f, top)
  {
  }

  /** Fewer orders, or the same under looser bounds. */
  lemma FlatOkWeakens(c: SimConfig, f: seq<Order>, g: seq<Order>, n: nat, m: nat,
                      top: int, higher: int, nextId: nat, later: nat)
    requires FlatOk(c, f, n, top, nextId) && ValidFlat(g) && (forall o :: o in g ==> o in f)
    requires |g| <= m && top <= higher && nextId <= later
    ensures FlatOk(c, g, m, higher, later)
  {
    hide ValidFlat;
  }

  /** One passive order more. */
  lemma FlatOkInserts(c: SimConfig, f: seq<Order>, i: nat, n: nat, top: int, nextId: nat)
    requires i < |f| && ValidFlat(f) && |f| <= n + 1
    requires FlatOk(c, RemoveAt(f, i), n, top, nextId)
    requires OrderOk(c, f[i], top, nextId) && Passive(f[i], RemoveAt(f, i))
    ensures FlatOk(c, f, n + 1, top, nextId)
  {
    ValidIsUnique(f);
    RestOf(f, i);
    hide ValidFlat, UniqueIds, RemoveAt;
  }

  lemma RemovedValid(f: seq<Order>, i: nat)
    requires i < |f| && ValidFlat(f)
    ensures ValidFlat(RemoveAt(f, i)) && forall o :: o in RemoveAt(f, i) ==> o in f
  {
    ApplyKeepsValid(f, Op.Cancel(f[i].id));
    IndexOfUnique(f, i);
  }

  // ---- The four order messages ----

  lemma MirrorDeletes(c: SimConfig, s: SymbolState, f: seq<Order>, i: nat)
    requires i < |f| && UniqueIds(f) && Sized(f, c.maxQty) && MirrorOk(s.orders, s.bidQty, s.askQty, f)
    ensures var (o, t) := (f[i], DepthRemoved(s, f[i].side, f[i].price, f[i].quantity));
      && o.id in s.orders && s.orders[o.id] == LiveOrder(o.side, o.price, o.quantity)
      && MirrorOk(s.orders - {o.id}, t.bidQty, t.askQty, RemoveAt(f, i))
  {
    hide ExactDepth, DepthMinus, Sized, UniqueIds;
    DepthOfDeletion(s.bidQty, f, i, true, c.maxQty);
    DepthOfDeletion(s.askQty, f, i, false, c.maxQty);
    MirrorsDeletion(s.orders, f, i);
    assert f[i] in f;
    hide Mirrors;
  }

  lemma MirrorInserts(c: SimConfig, s: SymbolState, f: seq<Order>, i: nat)
    requires i < |f| && UniqueIds(f) && Sized(f, c.maxQty) && |f| * c.maxQty < TWO32
    requires MirrorOk(s.orders, s.bidQty, s.askQty, RemoveAt(f, i))
    ensures var (o, t) := (f[i], DepthAdded(s, f[i].side, f[i].price, f[i].quantity));
      MirrorOk(s.orders[o.id := LiveOrder(o.side, o.price, o.quantity)], t.bidQty, t.askQty, f)
  {
    hide ExactDepth, DepthPlus, Sized, UniqueIds;
    DepthOfInsertion(s.bidQty, f, i, true, c.maxQty);
    DepthOfInsertion(s.askQty, f, i, false, c.maxQty);
    MirrorsInsertion(s.orders, f, i);
    hide Mirrors;
  }

  /** The live order in the drawn slot rests in the book. */
  lemma PickedRests(s: SymbolState, f: seq<Order>, d: Draws)
    requires LiveOk(s) && s.liveIds != [] && Mirrors(s.orders, f)
    ensures var (id, i) := (PickedId(s, d), IndexOf(f, PickedId(s, d)));
      && id in s.orders && i < |f| && f[i].id == id && s.orders[id] == LiveOrder(f[i].side, f[i].price, f[i].quantity)
  {
    hide LiveOk, PickedId;
    var i := IndexOf(f, PickedId(s, d));
    assert i < |f| ==> f[i] in f;
  }

  /** What one order message does: it is accepted, fits the wire format, and leaves generator and book in
      agreement. */
  ghost predicate StepOk(c: SimConfig, t: SymbolState, b: Body, symbol: nat, f: seq<Order>, n: nat, nextId: nat) {
    && IsOrderEvent(b) && b.symbol == symbol && BodyFits(b)
    && Apply(f, OpOf(b)).1 && SymbolOk(c, t, Apply(f, OpOf(b)).0, n, nextId)
  }

  /** The bounds a step works under: `n` messages so far, at most `numMessages` with this one. */
  ghost predicate Room(c: SimConfig, s: SymbolState, symbol: nat, n: nat, nextId: nat) {
    && c.tick > 0 && CanDraw(c) && c.minQty >= 1 && symbol < TWO32 && nextId < TWO64 && c.maxQty < TWO32
    && (n + 1) * c.maxQty < TWO32 && TopAfter(c, s.refMid, n + 1) < TWO63
  }

  lemma TopsInOrder(c: SimConfig, refMid: int, n: nat)
    requires c.tick > 0
    ensures refMid <= TopAfter(c, refMid, n) <= TopAfter(c, refMid, n + 1)
    ensures TopAfter(c, refMid, n + 1) == TopAfter(c, refMid, n) + c.bandLevels * c.tick
  {
    TopGrows(c, refMid, n);
    TimesMonotone(0, c.bandLevels, c.tick);
    TimesMonotone(0, n, c.bandLevels * c.tick);
  }

  lemma AddOk(c: SimConfig, s: SymbolState, symbol: nat, f: seq<Order>, n: nat, id: nat, d: Draws)
    requires SymbolOk(c, s, f, n, id) && Room(c, s, symbol, n, id)
    ensures var (t, b) := FillAdd(c, s, symbol, id, d); StepOk(c, t, b, symbol, f, n + 1, id + 1)
  {
    hide LiveOk, DepthPlus, DepthMinus, ChosenPrice, ExactDepth, ValidFlat, TopAfter, RemoveAt, Crossed;
    var b := FillAdd(c, s, symbol, id, d).1;
    var o := Order(id, b.side, b.price, b.quantity);
    var g := f + [o];
    var top := TopAfter(c, s.refMid, n + 1);
    AtBack(f, o);
    NewId(c, s, f, n, TopAfter(c, s.refMid, n), id);
    ApplyKeepsValid(f, Op.Add(id, b.side, b.price, b.quantity));
    FlatIsSized(c, f, n, TopAfter(c, s.refMid, n), id);
    TopsInOrder(c, s.refMid, n);
    ExactKeys(s.bidQty, f, true);
    ExactKeys(s.askQty, f, false);
    ChosenPriceIsPassive(c, s, f, b.side, d, TopAfter(c, s.refMid, n));
    FlatOkWeakens(c, f, f, n, n, TopAfter(c, s.refMid, n), top, id, id + 1);
    FlatOkInserts(c, g, |f|, n, top, id + 1);
    FlatIsSized(c, g, n + 1, top, id + 1);
    TimesMonotone(|g|, n + 1, c.maxQty);
    ValidIsUnique(g);
    MirrorInserts(c, s, g, |f|);
    RegisteredLive(s, id, b.side, b.price, b.quantity);
  }

  lemma NewId(c: SimConfig, s: SymbolState, f: seq<Order>, n: nat, top: int, id: nat)
    requires FlatOk(c, f, n, top, id) && Mirrors(s.orders, f) && LiveOk(s)
    ensures IndexOf(f, id) == |f| && id !in s.orders && id !in s.index
  {
    hide ValidFlat;
    forall k | 0 <= k < |f| ensures f[k].id < id { assert f[k] in f; }
  }

  lemma CancelOk(c: SimConfig, s: SymbolState, symbol: nat, f: seq<Order>, n: nat, id: nat, d: Draws)
    requires SymbolOk(c, s, f, n, id) && Room(c, s, symbol, n, id) && s.liveIds != []
    ensures var (t, b) := FillCancel(s, symbol, d); StepOk(c, t, b, symbol, f, n + 1, id)
  {
    hide LiveOk, PickedId, DepthMinus, ExactDepth, ValidFlat, TopAfter, RemoveAt, Crossed, Mirrors, UniqueIds;
    var i := IndexOf(f, PickedId(s, d));
    PickedRests(s, f, d);
    UnregisteredLive(s, PickedId(s, d));
    DeletionOk(c, s, f, i, n, id);
    assert f[i] in f;
  }

  /** Removing one order keeps everything but the ids in agreement. */
  lemma DeletionOk(c: SimConfig, s: SymbolState, f: seq<Order>, i: nat, n: nat, id: nat)
    requires SymbolOk(c, s, f, n, id) && c.tick > 0 && i < |f|
    ensures var (o, g, t) := (f[i], RemoveAt(f, i), DepthRemoved(s, f[i].side, f[i].price, f[i].quantity));
      && UniqueIds(f) && ValidFlat(g)
      && FlatOk(c, g, n, TopAfter(c, s.refMid, n), id) && FlatOk(c, g, n + 1, TopAfter(c, s.refMid, n + 1), id)
      && MirrorOk(s.orders - {o.id}, t.bidQty, t.askQty, g)
      && |g| == |f| - 1 && Passive(o, g)
  {
    var top, next := TopAfter(c, s.refMid, n), TopAfter(c, s.refMid, n + 1);
    FlatIsSized(c, f, n, top, id);
    ValidIsUnique(f);
    RemovedValid(f, i);
    RestOf(f, i);
    assert |RemoveAt(f, i)| == |f| - 1;
    hide LiveOk, DepthMinus, ExactDepth, ValidFlat, TopAfter, RemoveAt, Mirrors, UniqueIds;
    MirrorDeletes(c, s, f, i);
    TopsInOrder(c, s.refMid, n);
    FlatOkWeakens(c, f, RemoveAt(f, i), n, n, top, top, id, id);
    FlatOkWeakens(c, f, RemoveAt(f, i), n, n + 1, top, next, id, id);
  }

  /** Putting a changed order back: in place or at the end, at any passive price. */
  lemma ReplacementOk(c: SimConfig, without: SymbolState, g: seq<Order>, h: seq<Order>, i: nat, n: nat, top: int, id: nat)
    requires i < |h| && RemoveAt(h, i) == g && ValidFlat(h) && |h| <= n && n * c.maxQty < TWO32
    requires FlatOk(c, g, n, top, id) && OrderOk(c, h[i], top, id) && Passive(h[i], g) && n > 0 && |g| <= n - 1
    requires MirrorOk(without.orders, without.bidQty, without.askQty, g)
    ensures var (o, t) := (h[i], DepthAdded(without, h[i].side, h[i].price, h[i].quantity));
      && FlatOk(c, h, n, top, id)
      && MirrorOk(without.orders[o.id := LiveOrder(o.side, o.price, o.quantity)], t.bidQty, t.askQty, h)
  {
    hide DepthPlus, ExactDepth, ValidFlat, RemoveAt, Mirrors, UniqueIds, Crossed;
    FlatOkWeakens(c, g, g, n, n - 1, top, top, id, id);
    FlatOkInserts(c, h, i, n - 1, top, id);
    FlatIsSized(c, h, n, top, id);
    ValidIsUnique(h);
    TimesMonotone(|h|, n, c.maxQty);
    MirrorInserts(c, without, h, i);
  }

  /** Where a modified order ends up. */
  lemma ModifiedIs(f: seq<Order>, i: nat, price: int, qty: nat)
    requires i < |f| && ValidFlat(f) && qty > 0
    ensures var (g, op, o) := (RemoveAt(f, i), Op.Modify(f[i].id, price, qty), Order(f[i].id, f[i].side, price, qty));
      var (h, ok) := Apply(f, op);
      var k := if price == f[i].price && qty <= f[i].quantity then i else |g|;
      ok && k < |h| && h[k] == o && RemoveAt(h, k) == g && ValidFlat(h) && |h| == |f|
  {
    ValidIsUnique(f);
    IndexOfUnique(f, i);
    ApplyKeepsValid(f, Op.Modify(f[i].id, price, qty));
    hide ValidFlat, UniqueIds, IndexOf;
  }

  lemma ModifyOk(c: SimConfig, s: SymbolState, symbol: nat, f: seq<Order>, n: nat, id: nat, d: Draws)
    requires SymbolOk(c, s, f, n, id) && Room(c, s, symbol, n, id) && s.liveIds != []
    ensures var (t, b) := FillModify(c, s, symbol, d); StepOk(c, t, b, symbol, f, n + 1, id)
  {
    hide LiveOk, PickedId, DepthMinus, DepthPlus, ExactDepth, ValidFlat, TopAfter, RemoveAt, Crossed,
         Mirrors, UniqueIds, ChosenPrice, Apply, Passive;
    var i := IndexOf(f, PickedId(s, d));
    PickedRests(s, f, d);
    FillModifyLive(c, s, symbol, d);
    var (t, b) := FillModify(c, s, symbol, d);
    var o, g := f[i], RemoveAt(f, i);
    var without := DepthRemoved(s, o.side, o.price, o.quantity);
    var gone := without.(orders := s.orders - {o.id});
    DeletionOk(c, s, f, i, n, id);
    ExactKeys(without.bidQty, g, true);
    ExactKeys(without.askQty, g, false);
    TopsInOrder(c, s.refMid, n);
    FlatIsSized(c, g, n, TopAfter(c, s.refMid, n), id);
    ChosenPriceIsPassive(c, without, g, o.side, d, TopAfter(c, s.refMid, n));
    ModifiedIs(f, i, b.newPrice, b.newQuantity);
    var h := Apply(f, OpOf(b)).0;
    var k := if b.newPrice == f[i].price && b.newQuantity <= f[i].quantity then i else |g|;
    assert f[i] in f;
    ReplacementOk(c, gone, g, h, k, n + 1, TopAfter(c, s.refMid, n + 1), id);
    assert (s.orders - {o.id})[o.id := LiveOrder(o.side, b.newPrice, b.newQuantity)]
        == s.orders[o.id := LiveOrder(o.side, b.newPrice, b.newQuantity)];
  }

  /** What is left after a fill. */
  lemma FilledIs(f: seq<Order>, i: nat, fill: nat)
    requires i < |f| && ValidFlat(f) && fill <= f[i].quantity
    ensures var (h, ok) := Apply(f, Op.Execute(f[i].id, fill));
      && ok && ValidFlat(h)
      && (fill == f[i].quantity ==> h == RemoveAt(f, i))
      && (fill < f[i].quantity ==> h == f[i := f[i].(quantity := f[i].quantity - fill)] && RemoveAt(h, i) == RemoveAt(f, i))
  {
    ValidIsUnique(f);
    IndexOfUnique(f, i);
    ApplyKeepsValid(f, Op.Execute(f[i].id, fill));
    hide ValidFlat, UniqueIds, IndexOf;
  }

  lemma PartialFillOk(c: SimConfig, s: SymbolState, f: seq<Order>, i: nat, fill: nat, n: nat, id: nat)
    requires SymbolOk(c, s, f, n, id) && c.tick > 0 && i < |f| && fill < f[i].quantity && n > 0
    ensures var o := f[i].(quantity := f[i].quantity - fill);
      var t := DepthRemoved(s, o.side, o.price, fill);
      && FlatOk(c, f[i := o], n + 1, TopAfter(c, s.refMid, n + 1), id)
      && MirrorOk(s.orders[o.id := LiveOrder(o.side, o.price, o.quantity)], t.bidQty, t.askQty, f[i := o])
  {
    hide LiveOk, DepthMinus, ExactDepth, ValidFlat, TopAfter, RemoveAt, Crossed, UniqueIds, Mirrors, Apply;
    FilledIs(f, i, fill);
    var o := f[i].(quantity := f[i].quantity - fill);
    var g, h := RemoveAt(f, i), f[i := o];
    var top := TopAfter(c, s.refMid, n + 1);
    DeletionOk(c, s, f, i, n, id);
    TopsInOrder(c, s.refMid, n);
    assert f[i] in f;
    FlatOkInserts(c, h, i, n + 1, top, id);
    FlatOkWeakens(c, f, f, n, n, TopAfter(c, s.refMid, n), top, id, id);
    DepthOfReduction(s.bidQty, f, i, fill, true);
    DepthOfReduction(s.askQty, f, i, fill, false);
    ValidIsUnique(h);
    MirrorsInsertion(s.orders - {o.id}, h, i);
    assert (s.orders - {o.id})[o.id := LiveOrder(o.side, o.price, o.quantity)]
        == s.orders[o.id := LiveOrder(o.side, o.price, o.quantity)];
  }

  lemma TradeOk(c: SimConfig, s: SymbolState, symbol: nat, f: seq<Order>, n: nat, id: nat, d: Draws)
    requires SymbolOk(c, s, f, n, id) && Room(c, s, symbol, n, id) && s.liveIds != []
    ensures var (t, b) := FillTrade(s, symbol, d); StepOk(c, t, b, symbol, f, n + 1, id)
  {
    hide LiveOk, PickedId, DepthMinus, ExactDepth, TopAfter, RemoveAt, Crossed, Mirrors, UniqueIds, Apply, Passive, ValidFlat;
    var i := IndexOf(f, PickedId(s, d));
    PickedRests(s, f, d);
    FillTradeLive(s, symbol, d);
    var fill := Draw(1, f[i].quantity, d.fill);
    assert f[i] in f && |f| > 0;
    FilledIs(f, i, fill);
    TopsInOrder(c, s.refMid, n);
    DeletionOk(c, s, f, i, n, id);
    if fill < f[i].quantity {
      PartialFillOk(c, s, f, i, fill, n, id);
    }
  }

  // ---- Every message ----

  lemma SymbolLater(c: SimConfig, s: SymbolState, f: seq<Order>, n: nat, id: nat, later: nat)
    requires SymbolOk(c, s, f, n, id) && id <= later && c.tick > 0
    ensures SymbolOk(c, s, f, n + 1, later)
  {
    hide LiveOk, ValidFlat, TopAfter, MirrorOk, Crossed;
    TopsInOrder(c, s.refMid, n);
    FlatOkWeakens(c, f, f, n, n + 1, TopAfter(c, s.refMid, n), TopAfter(c, s.refMid, n + 1), id, later);
  }

  lemma OrderMessageOk(c: SimConfig, s: SymbolState, symbol: nat, f: seq<Order>, n: nat, id: nat, d: Draws)
    requires SymbolOk(c, s, f, n, id) && Room(c, s, symbol, n, id)
    ensures var (t, b, used) := OrderMessage(c, s, symbol, id, d);
      StepOk(c, t, b, symbol, f, n + 1, if used then id + 1 else id)
  {
    hide StepOk, Room, FlatOk, MirrorOk, LiveOk, FillAdd, FillCancel, FillModify, FillTrade;
    var r := Draw(0, 99, d.mix);
    if r < c.wAdd || s.liveIds == [] {
      AddOk(c, s, symbol, f, n, id, d);
    } else if r < c.wAdd + c.wCancel {
      CancelOk(c, s, symbol, f, n, id, d);
    } else if r < c.wAdd + c.wCancel + c.wModify {
      ModifyOk(c, s, symbol, f, n, id, d);
    } else {
      TradeOk(c, s, symbol, f, n, id, d);
    }
  }

  /** A snapshot of exact depth fits the wire format. */
  lemma SideFits(m: map<int, nat>, buy: bool)
    requires forall p :: p in m ==> PriceFits(p) && m[p] < TWO32
    ensures |SnapshotSide(m, buy)| <= MAX_SNAPSHOT_LEVELS && LevelsFit(ZeroFilled(SnapshotSide(m, buy)))
  {
    hide TopKeys, Entries;
    var ps := TopKeys(buy, m.Keys, MAX_SNAPSHOT_LEVELS);
    var es := SnapshotSide(m, buy);
    var zs := ZeroFilled(es);
    forall i | 0 <= i < |zs| ensures PriceFits(zs[i].price) && zs[i].quantity < TWO32 {
      if i < |es| {
        EntryIs(m, ps, i);
        assert ps[i] in ps;
      }
    }
  }

  /** A snapshot of a generator's symbol is the snapshot of its book, and fits the wire format. */
  lemma SnapshotAgrees(c: SimConfig, s: SymbolState, symbol: nat, f: seq<Order>, n: nat, id: nat)
    requires SymbolOk(c, s, f, n, id) && c.tick > 0 && TopAfter(c, s.refMid, n) < TWO63 && symbol < TWO32
    ensures SnapshotOf(symbol, s.bidQty, s.askQty) == SnapshotOf(symbol, Depth(f, true), Depth(f, false))
    ensures ShowsBook(SnapshotOf(symbol, s.bidQty, s.askQty), symbol, f)
    ensures BodyFits(SnapshotOf(symbol, s.bidQty, s.askQty))
  {
    hide LiveOk, ValidFlat, Mirrors, Crossed, TopAfter, SnapshotSide, ShowsBook;
    BookShown(symbol, f);
    ExactIsDepth(s.bidQty, f, true);
    ExactIsDepth(s.askQty, f, false);
    LevelsPriced(c, s.bidQty, f, true, n, TopAfter(c, s.refMid, n), id);
    LevelsPriced(c, s.askQty, f, false, n, TopAfter(c, s.refMid, n), id);
    hide ExactDepth, Depth;
    SideFits(s.bidQty, true);
    SideFits(s.askQty, false);
  }

  lemma LevelsPriced(c: SimConfig, m: map<int, nat>, f: seq<Order>, buy: bool, n: nat, top: int, id: nat)
    requires FlatOk(c, f, n, top, id) && ExactDepth(m, f, buy) && c.tick > 0 && top < TWO63
    ensures forall p :: p in m ==> PriceFits(p) && m[p] < TWO32
  {
    hide ValidFlat, Crossed, Queue, Total;
    forall p | p in m ensures PriceFits(p) {
      QueueMembers(f, buy, p);
      assert Queue(f, buy, p)[0] in Queue(f, buy, p);
    }
  }
}
