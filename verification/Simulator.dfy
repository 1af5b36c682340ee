/** The synthetic exchange feed (include/mdfh/simulator.hpp, src/simulator.cpp). Every random draw is an
    arbitrary choice within the range of its distribution. */
module Simulators {
  import opened Protocol
  import opened Ordered
  import opened FlatBook

  datatype SimConfig = SimConfig(numSymbols: nat, numMessages: nat, startPrice: int, symbolPriceStep: int,
                                 tick: int, bandLevels: nat, minQty: nat, maxQty: nat, tsStart: nat, tsStep: nat,
                                 wAdd: int, wCancel: int, wModify: int,
                                 snapshotInterval: nat, heartbeatInterval: nat)

  /** What the distributions need of the configuration: ranges that are not empty. */
  predicate CanDraw(c: SimConfig) {
    c.numSymbols > 0 && c.bandLevels > 0 && c.minQty <= c.maxQty
  }

  datatype LiveOrder = LiveOrder(side: nat, price: int, qty: nat)

  datatype SymbolState = SymbolState(refMid: int, orders: map<nat, LiveOrder>, liveIds: seq<nat>, index: map<nat, nat>,
                                     bidQty: map<int, nat>, askQty: map<int, nat>)

  datatype SimState = SimState(symbols: seq<SymbolState>, produced: nat, nextSeq: nat, nextOrderId: nat, ts: nat)

  /** The draws one message may use; each is used at most once. */
  datatype Draws = Draws(symbol: nat, mix: nat, side: nat, offset: nat, qty: nat, pick: nat, fill: nat)

  /** A draw from the range `lo` to `hi`. */
  function Draw(lo: nat, hi: nat, choice: nat): (v: nat)
    ensures lo <= hi ==> lo <= v <= hi
    ensures lo + choice <= hi ==> v == lo + choice
  {
    if lo + choice <= hi then lo + choice else hi
  }

  function Opposite(side: nat): nat {
    if side == BUY then SELL else BUY
  }

  // ---- Aggregate depth ----

  function DepthPlus(m: map<int, nat>, p: int, q: nat): map<int, nat> {
    m[p := ((if p in m then m[p] else 0) + q) % TWO32]
  }

  function DepthMinus(m: map<int, nat>, p: int, q: nat): map<int, nat> {
    if p !in m then m else if m[p] <= q then m - {p} else m[p := m[p] - q]
  }

  function DepthAdded(s: SymbolState, side: nat, p: int, q: nat): SymbolState {
    if side == BUY then s.(bidQty := DepthPlus(s.bidQty, p, q)) else s.(askQty := DepthPlus(s.askQty, p, q))
  }

  function DepthRemoved(s: SymbolState, side: nat, p: int, q: nat): SymbolState {
    if side == BUY then s.(bidQty := DepthMinus(s.bidQty, p, q)) else s.(askQty := DepthMinus(s.askQty, p, q))
  }

  // ---- Live orders ----

  function Registered(s: SymbolState, id: nat, side: nat, p: int, q: nat): SymbolState {
    var t := s.(orders := if id in s.orders then s.orders else s.orders[id := LiveOrder(side, p, q)],
                index := if id in s.index then s.index else s.index[id := |s.liveIds|],
                liveIds := s.liveIds + [id]);
    DepthAdded(t, side, p, q)
  }

  /** `live_ids` and `index` are inverse to each other over the keys of `orders`. */
  ghost predicate LiveOk(s: SymbolState) {
    && s.index.Keys == s.orders.Keys
    && (forall i :: 0 <= i < |s.liveIds| ==> s.liveIds[i] in s.index && s.index[s.liveIds[i]] == i)
    && (forall id :: id in s.index ==> s.index[id] < |s.liveIds| && s.liveIds[s.index[id]] == id)
  }

  /** Swap-remove from `live_ids`. */
  function Unregistered(s: SymbolState, id: nat): SymbolState
    requires LiveOk(s)
  {
    if id !in s.orders then s
    else
      var o := s.orders[id];
      var (slot, last) := (s.index[id], s.liveIds[|s.liveIds| - 1]);
      DepthRemoved(s, o.side, o.price, o.qty)
        .(liveIds := s.liveIds[slot := last][..|s.liveIds| - 1],
          index := s.index[last := slot] - {id},
          orders := s.orders - {id})
  }

  lemma SlotOf(s: SymbolState, id: nat)
    requires LiveOk(s) && id in s.orders
    ensures id in s.index && s.index[id] < |s.liveIds|
  {
  }

  /** The live order in the drawn slot. */
  function PickedId(s: SymbolState, d: Draws): (id: nat)
    requires LiveOk(s) && s.liveIds != []
    ensures id in s.orders
  {
    s.liveIds[Draw(0, |s.liveIds| - 1, d.pick)]
  }

  /** Any live order may be drawn. */
  lemma AnyOrderMayBePicked(s: SymbolState, d: Draws, id: nat)
    requires LiveOk(s) && id in s.orders
    ensures s.liveIds != [] && PickedId(s, d.(pick := s.index[id])) == id
  {
  }

  // ---- Prices ----

  function Least(a: int, b: int): int {
    if a <= b then a else b
  }

  function Greatest(a: int, b: int): int {
    if a >= b then a else b
  }

  /** A passive price near the touch: at most one tick inside it, and up to `bandLevels` - 1 ticks away. */
  function ChosenPrice(c: SimConfig, s: SymbolState, side: nat, d: Draws): int {
    var offset := Draw(0, if c.bandLevels == 0 then 0 else c.bandLevels - 1, d.offset);
    if side == BUY then
      var ceiling := if s.askQty == map[] then s.refMid - c.tick else BestOf(false, s.askQty.Keys) - c.tick;
      var anchor := if s.bidQty == map[] then ceiling else Least(BestOf(true, s.bidQty.Keys) + c.tick, ceiling);
      Greatest(anchor - offset * c.tick, c.tick)
    else
      var floor := if s.bidQty == map[] then s.refMid + c.tick else BestOf(true, s.bidQty.Keys) + c.tick;
      var anchor := if s.askQty == map[] then floor else Greatest(BestOf(false, s.askQty.Keys) - c.tick, floor);
      anchor + offset * c.tick
  }

  // ---- The four order messages ----

  function FillAdd(c: SimConfig, s: SymbolState, symbol: nat, id: nat, d: Draws): (SymbolState, Body) {
    var side := if Draw(0, 1, d.side) == 0 then BUY else SELL;
    var (price, qty) := (ChosenPrice(c, s, side, d), Draw(c.minQty, c.maxQty, d.qty));
    (Registered(s, id, side, price, qty), AddOrder(symbol, id, side, price, qty))
  }

  function FillCancel(s: SymbolState, symbol: nat, d: Draws): (SymbolState, Body)
    requires LiveOk(s) && s.liveIds != []
  {
    var id := PickedId(s, d);
    (Unregistered(s, id), CancelOrder(symbol, id))
  }

  function FillModify(c: SimConfig, s: SymbolState, symbol: nat, d: Draws): (SymbolState, Body)
    requires LiveOk(s) && s.liveIds != []
  {
    var id := PickedId(s, d);
    var o := s.orders[id];
    var without := DepthRemoved(s, o.side, o.price, o.qty);
    var (price, qty) := (ChosenPrice(c, without, o.side, d), Draw(c.minQty, c.maxQty, d.qty));
    (DepthAdded(without.(orders := s.orders[id := LiveOrder(o.side, price, qty)]), o.side, price, qty),
     ModifyOrder(symbol, id, price, qty))
  }

  function FillTrade(s: SymbolState, symbol: nat, d: Draws): (SymbolState, Body)
    requires LiveOk(s) && s.liveIds != []
  {
    var id := PickedId(s, d);
    var o := s.orders[id];
    var fill := Draw(1, o.qty, d.fill);
    (if fill >= o.qty then Unregistered(s, id)
     else DepthRemoved(s, o.side, o.price, fill).(orders := s.orders[id := o.(qty := o.qty - fill)]),
     Trade(symbol, id, o.price, fill, Opposite(o.side)))
  }

  /** An order message by the drawn mix; an add when the symbol has no live order to act on. The last
      component says whether an order id was used. */
  function OrderMessage(c: SimConfig, s: SymbolState, symbol: nat, id: nat, d: Draws): (SymbolState, Body, bool)
    requires LiveOk(s)
  {
    var r := Draw(0, 99, d.mix);
    if r < c.wAdd || s.liveIds == [] then
      var (t, b) := FillAdd(c, s, symbol, id, d); (t, b, true)
    else if r < c.wAdd + c.wCancel then
      var (t, b) := FillCancel(s, symbol, d); (t, b, false)
    else if r < c.wAdd + c.wCancel + c.wModify then
      var (t, b) := FillModify(c, s, symbol, d); (t, b, false)
    else
      var (t, b) := FillTrade(s, symbol, d); (t, b, false)
  }

  // ---- The message stream ----

  predicate DueEvery(interval: nat, i: nat) {
    interval != 0 && i % interval == 0
  }

  function SymbolDrawn(c: SimConfig, d: Draws): nat
    requires c.numSymbols > 0
  {
    Draw(0, c.numSymbols - 1, d.symbol)
  }

  ghost predicate AllLive(st: SimState) {
    forall i :: 0 <= i < |st.symbols| ==> LiveOk(st.symbols[i])
  }

  /** The symbol's next state, the message body, and whether an order id was used. */
  function NextBody(c: SimConfig, st: SimState, d: Draws): (SymbolState, Body, bool)
    requires CanDraw(c) && |st.symbols| == c.numSymbols && AllLive(st)
  {
    var symbol := SymbolDrawn(c, d);
    var s := st.symbols[symbol];
    if DueEvery(c.heartbeatInterval, st.produced + 1) then (s, Heartbeat, false)
    else if DueEvery(c.snapshotInterval, st.produced + 1) then (s, SnapshotOf(symbol, s.bidQty, s.askQty), false)
    else OrderMessage(c, s, symbol, st.nextOrderId, d)
  }

  /** While messages remain, the distributions have something to draw from. */
  predicate MayDraw(c: SimConfig, st: SimState) {
    st.produced < c.numMessages ==> CanDraw(c)
  }

  /** `next`: nothing once `numMessages` have been produced. Sequence numbers, order ids and
      timestamps wrap at their widths. */
  function Produced(c: SimConfig, st: SimState, d: Draws): (SimState, Option<Message>)
    requires MayDraw(c, st) && |st.symbols| == c.numSymbols && AllLive(st)
  {
    if st.produced >= c.numMessages then (st, None)
    else
      var (s, b, usedId) := NextBody(c, st, d);
      (SimState(st.symbols[SymbolDrawn(c, d) := s], st.produced + 1, (st.nextSeq + 1) % TWO32,
                if usedId then (st.nextOrderId + 1) % TWO64 else st.nextOrderId, (st.ts + c.tsStep) % TWO64),
       Some(Message(st.nextSeq, st.ts, b)))
  }

  function NewSymbol(refMid: int): SymbolState {
    SymbolState(refMid, map[], [], map[], map[], map[])
  }

  function RefMid(c: SimConfig, i: nat): int {
    c.startPrice + i * c.symbolPriceStep
  }

  function NewSymbols(c: SimConfig, n: nat): (r: seq<SymbolState>)
    ensures |r| == n && forall i :: 0 <= i < n ==> r[i] == NewSymbol(RefMid(c, i))
  {
    if n == 0 then [] else NewSymbols(c, n - 1) + [NewSymbol(RefMid(c, n - 1))]
  }

  function Fresh(c: SimConfig): SimState {
    SimState(NewSymbols(c, c.numSymbols), 0, 1, 1, c.tsStart)
  }

  // ---- Live ids stay indexed ----

  lemma RegisteredLive(s: SymbolState, id: nat, side: nat, p: int, q: nat)
    requires LiveOk(s) && id !in s.orders
    ensures LiveOk(Registered(s, id, side, p, q))
  {
    hide DepthPlus;
  }

  /** Swap-remove keeps the two inverse, whichever slot it empties. */
  lemma UnregisteredLive(s: SymbolState, id: nat)
    requires LiveOk(s)
    ensures LiveOk(Unregistered(s, id))
  {
    hide DepthMinus;
    if id in s.orders {
      var t := Unregistered(s, id);
      var slot, last, n := s.index[id], s.liveIds[|s.liveIds| - 1], |s.liveIds| - 1;
      forall i | 0 <= i < |t.liveIds| ensures t.liveIds[i] in t.index && t.index[t.liveIds[i]] == i {
        assert t.liveIds[i] == if i == slot then last else s.liveIds[i];
      }
    }
  }

  /** A depth or price change of live orders leaves ids and slots alone. */
  lemma SameIdsLive(s: SymbolState, t: SymbolState)
    requires LiveOk(s) && t.orders.Keys == s.orders.Keys && t.liveIds == s.liveIds && t.index == s.index
    ensures LiveOk(t)
  {
  }

  lemma FillModifyLive(c: SimConfig, s: SymbolState, symbol: nat, d: Draws)
    requires LiveOk(s) && s.liveIds != []
    ensures LiveOk(FillModify(c, s, symbol, d).0)
  {
    hide DepthPlus, DepthMinus, ChosenPrice, PickedId;
    var t := FillModify(c, s, symbol, d).0;
    assert t.orders.Keys == s.orders.Keys;
    SameIdsLive(s, t);
    hide LiveOk;
  }

  lemma FillTradeLive(s: SymbolState, symbol: nat, d: Draws)
    requires LiveOk(s) && s.liveIds != []
    ensures LiveOk(FillTrade(s, symbol, d).0)
  {
    hide DepthPlus, DepthMinus, PickedId, Unregistered;
    var id, t := PickedId(s, d), FillTrade(s, symbol, d).0;
    UnregisteredLive(s, id);
    if Draw(1, s.orders[id].qty, d.fill) < s.orders[id].qty {
      assert t.orders.Keys == s.orders.Keys;
      SameIdsLive(s, t);
    }
    hide LiveOk;
  }

  lemma OrderMessageLive(c: SimConfig, s: SymbolState, symbol: nat, id: nat, d: Draws)
    requires LiveOk(s) && id !in s.orders
    ensures LiveOk(OrderMessage(c, s, symbol, id, d).0)
  {
    hide LiveOk, DepthPlus, DepthMinus, ChosenPrice, Registered, Unregistered, FillModify, FillTrade;
    var r := Draw(0, 99, d.mix);
    if r < c.wAdd || s.liveIds == [] {
      var side := if Draw(0, 1, d.side) == 0 then BUY else SELL;
      RegisteredLive(s, id, side, ChosenPrice(c, s, side, d), Draw(c.minQty, c.maxQty, d.qty));
    } else if r < c.wAdd + c.wCancel {
      UnregisteredLive(s, PickedId(s, d));
    } else if r < c.wAdd + c.wCancel + c.wModify {
      FillModifyLive(c, s, symbol, d);
    } else {
      FillTradeLive(s, symbol, d);
    }
  }

  /** The order ids in use; an add inserts the given one, everything else only removes. */
  lemma OrderMessageIds(c: SimConfig, s: SymbolState, symbol: nat, id: nat, d: Draws)
    requires LiveOk(s)
    ensures var (t, _, used) := OrderMessage(c, s, symbol, id, d);
      t.orders.Keys <= s.orders.Keys + if used then {id} else {}
  {
    hide LiveOk, DepthPlus, DepthMinus, ChosenPrice, PickedId;
  }

  /** Every symbol's ids are indexed, and as long as messages remain the next order id is unused. */
  ghost predicate SimOk(c: SimConfig, st: SimState) {
    && |st.symbols| == c.numSymbols && AllLive(st)
    && (st.produced < c.numMessages ==>
          st.nextOrderId <= st.produced + 1
          && forall i, id :: 0 <= i < |st.symbols| && id in st.symbols[i].orders ==> id < st.nextOrderId)
  }

  lemma ProducedOk(c: SimConfig, st: SimState, d: Draws)
    requires MayDraw(c, st) && c.numMessages < TWO64 && SimOk(c, st)
    ensures var next := Produced(c, st, d).0; SimOk(c, next) && next.produced >= st.produced
  {
    hide OrderMessage, LiveOk;
    if st.produced < c.numMessages {
      var s := st.symbols[SymbolDrawn(c, d)];
      OrderMessageLive(c, s, SymbolDrawn(c, d), st.nextOrderId, d);
      OrderMessageIds(c, s, SymbolDrawn(c, d), st.nextOrderId, d);
    }
  }

  lemma FreshOk(c: SimConfig)
    ensures SimOk(c, Fresh(c))
  {
  }

  /** The state and the messages after `next` was called with these draws, one by one. */
  function GeneratedFrom(c: SimConfig, st: SimState, draws: seq<Draws>): (r: (SimState, seq<Message>))
    requires SimOk(c, st) && MayDraw(c, st) && c.numMessages < TWO64
    ensures SimOk(c, r.0) && r.0.produced >= st.produced
  {
    if draws == [] then (st, [])
    else
      var (before, ms) := GeneratedFrom(c, st, draws[..|draws| - 1]);
      var d := draws[|draws| - 1];
      ProducedOk(c, before, d);
      var (next, m) := Produced(c, before, d);
      (next, if m.Some? then ms + [m.value] else ms)
  }

  /** The same from a fresh simulator. */
  function Generated(c: SimConfig, draws: seq<Draws>): (r: (SimState, seq<Message>))
    requires CanDraw(c) && c.numMessages < TWO64
    ensures SimOk(c, r.0)
  {
    FreshOk(c);
    GeneratedFrom(c, Fresh(c), draws)
  }
}
