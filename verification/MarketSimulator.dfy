/** The generator as the source has it: state updated in place (src/simulator.cpp,
    include/mdfh/simulator.hpp). Every method is proved against the functions of `Simulators`. */
module MarketSimulators {
  import opened Protocol
  import opened Ordered
  import opened FlatBook
  import opened Shown
  import opened Simulators

  class Symbol {
    const refMid: int
    var orders: map<nat, LiveOrder>
    var liveIds: seq<nat>
    var index: map<nat, nat>
    var bidQty: map<int, nat>
    var askQty: map<int, nat>

    ghost function State(): SymbolState
      reads this
    {
      SymbolState(refMid, orders, liveIds, index, bidQty, askQty)
    }

    constructor (refMid: int)
      ensures State() == NewSymbol(refMid)
    {
      this.refMid := refMid;
      orders, liveIds, index, bidQty, askQty := map[], [], map[], map[], map[];
    }

    method AddDepth(side: nat, p: int, q: nat)
      modifies this`bidQty, this`askQty
      ensures State() == DepthAdded(old(State()), side, p, q)
    {
      var m := if side == BUY then bidQty else askQty;
      m := m[p := ((if p in m then m[p] else 0) + q) % TWO32];
      if side == BUY { bidQty := m; } else { askQty := m; }
    }

    method RemoveDepth(side: nat, p: int, q: nat)
      modifies this`bidQty, this`askQty
      ensures State() == DepthRemoved(old(State()), side, p, q)
    {
      var m := if side == BUY then bidQty else askQty;
      if p !in m { return; }
      if m[p] <= q { m := m - {p}; } else { m := m[p := m[p] - q]; }
      if side == BUY { bidQty := m; } else { askQty := m; }
    }

    method RegisterOrder(id: nat, side: nat, p: int, q: nat)
      modifies this
      ensures State() == Registered(old(State()), id, side, p, q)
      ensures LiveOk(old(State())) && id !in old(orders) ==> LiveOk(State())
    {
      if LiveOk(State()) && id !in orders { RegisteredLive(State(), id, side, p, q); }
      if id !in orders { orders := orders[id := LiveOrder(side, p, q)]; }
      if id !in index { index := index[id := |liveIds|]; }
      liveIds := liveIds + [id];
      AddDepth(side, p, q);
    }

    method UnregisterOrder(id: nat)
      requires LiveOk(State())
      modifies this
      ensures State() == Unregistered(old(State()), id) && LiveOk(State())
    {
      hide LiveOk, DepthMinus;
      UnregisteredLive(State(), id);
      if id !in orders { return; }
      SlotOf(State(), id);
      var o := orders[id];
      RemoveDepth(o.side, o.price, o.qty);
      var slot := index[id];
      var last := liveIds[|liveIds| - 1];
      liveIds := liveIds[slot := last];
      index := index[last := slot];
      liveIds := liveIds[..|liveIds| - 1];
      index := index - {id};
      orders := orders - {id};
    }

    method RandomLive(d: Draws) returns (id: nat)
      requires LiveOk(State()) && liveIds != []
      ensures id == PickedId(State(), d)
    {
      id := liveIds[Draw(0, |liveIds| - 1, d.pick)];
    }

    method ChoosePrice(c: SimConfig, side: nat, d: Draws) returns (price: int)
      requires CanDraw(c)
      ensures price == ChosenPrice(c, State(), side, d)
    {
      if side == BUY {
        var ceiling := if askQty == map[] then refMid - c.tick else BestOf(false, askQty.Keys) - c.tick;
        var anchor := ceiling;
        if bidQty != map[] { anchor := Least(BestOf(true, bidQty.Keys) + c.tick, ceiling); }
        price := Greatest(anchor - Draw(0, c.bandLevels - 1, d.offset) * c.tick, c.tick);
      } else {
        var floor := if bidQty == map[] then refMid + c.tick else BestOf(true, bidQty.Keys) + c.tick;
        var anchor := floor;
        if askQty != map[] { anchor := Greatest(BestOf(false, askQty.Keys) - c.tick, floor); }
        price := anchor + Draw(0, c.bandLevels - 1, d.offset) * c.tick;
      }
    }

    method AddMessage(c: SimConfig, symbol: nat, id: nat, d: Draws) returns (b: Body)
      requires CanDraw(c)
      modifies this
      ensures (State(), b) == FillAdd(c, old(State()), symbol, id, d)
    {
      hide ChosenPrice, Registered;
      var side := if Draw(0, 1, d.side) == 0 then BUY else SELL;
      var price := ChoosePrice(c, side, d);
      var qty := Draw(c.minQty, c.maxQty, d.qty);
      RegisterOrder(id, side, price, qty);
      b := AddOrder(symbol, id, side, price, qty);
    }

    method CancelMessage(symbol: nat, d: Draws) returns (b: Body)
      requires LiveOk(State()) && liveIds != []
      modifies this
      ensures (State(), b) == FillCancel(old(State()), symbol, d)
    {
      hide PickedId, LiveOk, Unregistered;
      var id := RandomLive(d);
      UnregisterOrder(id);
      b := CancelOrder(symbol, id);
    }

    method ModifyMessage(c: SimConfig, symbol: nat, d: Draws) returns (b: Body)
      requires LiveOk(State()) && liveIds != [] && CanDraw(c)
      modifies this
      ensures (State(), b) == FillModify(c, old(State()), symbol, d)
    {
      hide PickedId, LiveOk, ChosenPrice, DepthPlus, DepthMinus;
      var id := RandomLive(d);
      var o := orders[id];
      RemoveDepth(o.side, o.price, o.qty);
      var price := ChoosePrice(c, o.side, d);
      var qty := Draw(c.minQty, c.maxQty, d.qty);
      orders := orders[id := LiveOrder(o.side, price, qty)];
      AddDepth(o.side, price, qty);
      b := ModifyOrder(symbol, id, price, qty);
    }

    method TradeMessage(symbol: nat, d: Draws) returns (b: Body)
      requires LiveOk(State()) && liveIds != []
      modifies this
      ensures (State(), b) == FillTrade(old(State()), symbol, d)
    {
      hide PickedId, LiveOk, Unregistered, DepthMinus;
      var id := RandomLive(d);
      var o := orders[id];
      var fill := Draw(1, o.qty, d.fill);
      b := Trade(symbol, id, o.price, fill, Opposite(o.side));
      if fill >= o.qty {
        UnregisterOrder(id);
      } else {
        RemoveDepth(o.side, o.price, fill);
        orders := orders[id := o.(qty := o.qty - fill)];
      }
    }

    /** The order branch of `next`: the drawn action, or an add when there is nothing to act on. */
    method OrderBody(c: SimConfig, symbol: nat, id: nat, d: Draws) returns (b: Body, usedId: bool)
      requires LiveOk(State()) && CanDraw(c)
      modifies this
      ensures (State(), b, usedId) == OrderMessage(c, old(State()), symbol, id, d)
      ensures id !in old(orders) ==> LiveOk(State()) && orders.Keys <= old(orders.Keys) + if usedId then {id} else {}
    {
      hide LiveOk, FillAdd, FillCancel, FillModify, FillTrade;
      if id !in orders { OrderMessageLive(c, State(), symbol, id, d); }
      OrderMessageIds(c, State(), symbol, id, d);
      var r := Draw(0, 99, d.mix);
      var done := false;
      b, usedId := Heartbeat, false;
      if r < c.wAdd {
        b := AddMessage(c, symbol, id, d);
        done, usedId := true, true;
      } else if liveIds != [] {
        if r < c.wAdd + c.wCancel {
          b := CancelMessage(symbol, d);
        } else if r < c.wAdd + c.wCancel + c.wModify {
          b := ModifyMessage(c, symbol, d);
        } else {
          b := TradeMessage(symbol, d);
        }
        done := true;
      }
      if !done {
        b := AddMessage(c, symbol, id, d);
        usedId := true;
      }
    }

    /** One side of `make_snapshot`: walks the depth map best first. */
    method FillSide(depth: map<int, nat>, buy: bool) returns (levels: seq<SnapshotLevel>, count: nat)
      ensures |SnapshotSide(depth, buy)| == count <= MAX_SNAPSHOT_LEVELS
      ensures levels == ZeroFilled(SnapshotSide(depth, buy)) && ShowsDepth(levels, count, depth, buy)
    {
      hide TopKeys, BestOf, Entries, ZeroFilled, ShowsDepth;
      SideShows(depth, buy);
      levels := seq(MAX_SNAPSHOT_LEVELS, _ => SnapshotLevel(0, 0));
      count := 0;
      var rest := depth.Keys;
      ghost var done: seq<int> := [];
      NoEntries(depth);
      assert [] + TopKeys(buy, rest, MAX_SNAPSHOT_LEVELS) == TopKeys(buy, rest, MAX_SNAPSHOT_LEVELS);
      while rest != {} && count < MAX_SNAPSHOT_LEVELS
        invariant |done| == count <= MAX_SNAPSHOT_LEVELS && rest <= depth.Keys
        invariant done + TopKeys(buy, rest, MAX_SNAPSHOT_LEVELS - |done|) == TopKeys(buy, depth.Keys, MAX_SNAPSHOT_LEVELS)
        invariant levels == ZeroFilled(Entries(depth, done))
        decreases |rest|
      {
        var p := BestOf(buy, rest);
        TopKeysStep(buy, depth.Keys, MAX_SNAPSHOT_LEVELS, done, rest);
        EntriesNext(depth, done, p);
        levels := levels[count := SnapshotLevel(p, depth[p])];
        done := done + [p];
        rest := rest - {p};
        count := count + 1;
      }
      TopKeysEnd(buy, depth.Keys, MAX_SNAPSHOT_LEVELS, done, rest);
    }

    method MakeSnapshot(symbol: nat) returns (b: Body)
      ensures b == SnapshotOf(symbol, bidQty, askQty) && ShowsMaps(b, symbol, bidQty, askQty)
    {
      hide SnapshotSide, ShowsDepth;
      var bids, numBids := FillSide(bidQty, true);
      var asks, numAsks := FillSide(askQty, false);
      b := BookSnapshot(symbol, numBids, numAsks, bids, asks);
    }
  }

  lemma NoEntries(depth: map<int, nat>)
    ensures seq(MAX_SNAPSHOT_LEVELS, _ => SnapshotLevel(0, 0)) == ZeroFilled(Entries(depth, []))
  {
  }

  lemma EntriesNext(depth: map<int, nat>, done: seq<int>, p: int)
    requires p in depth && |done| < MAX_SNAPSHOT_LEVELS
    ensures ZeroFilled(Entries(depth, done + [p])) == ZeroFilled(Entries(depth, done))[|done| := SnapshotLevel(p, depth[p])]
  {
    assert (done + [p])[..|done|] == done;
  }

  class MarketSimulator {
    const config: SimConfig
    var symbols: seq<Symbol>
    var produced: nat
    var nextSeq: nat
    var nextOrderId: nat
    var ts: nat
    ghost var states: seq<SymbolState>

    /** The symbols are separate objects in the states recorded. */
    ghost predicate Holds()
      reads this, symbols
    {
      && |symbols| == |states|
      && (forall i :: 0 <= i < |symbols| ==> symbols[i].State() == states[i])
      && (forall i, j :: 0 <= i < j < |symbols| ==> symbols[i] != symbols[j])
    }

    ghost function State(): SimState
      reads this
    {
      SimState(states, produced, nextSeq, nextOrderId, ts)
    }

    ghost predicate Valid()
      reads this, symbols
    {
      config.numMessages < TWO64 && Holds() && SimOk(config, State())
    }

    constructor (c: SimConfig)
      requires c.numMessages < TWO64
      ensures Valid() && State() == Fresh(c) && config == c && fresh(symbols)
    {
      hide SimOk;
      config := c;
      symbols, states := [], NewSymbols(c, c.numSymbols);
      produced, nextSeq, nextOrderId, ts := 0, 1, 1, c.tsStart;
      new;
      FreshOk(c);
      var i := 0;
      while i < c.numSymbols
        invariant 0 <= i <= |states| == c.numSymbols && |symbols| == i && fresh(symbols) && State() == Fresh(c)
        invariant forall k :: 0 <= k < i ==> symbols[k].State() == states[k]
        invariant forall j, k :: 0 <= j < k < i ==> symbols[j] != symbols[k]
      {
        var s := new Symbol(RefMid(c, i));
        symbols := symbols + [s];
        i := i + 1;
      }
    }

    /** The message body, and the drawn symbol's update. */
    method NextMessage(k: nat, d: Draws) returns (b: Body, usedId: bool)
      requires Valid() && CanDraw(config) && k == SymbolDrawn(config, d) && AllLive(State()) && |states| == config.numSymbols
      modifies symbols[k]
      ensures (symbols[k].State(), b, usedId) == NextBody(config, State(), d)
    {
      hide OrderMessage, SnapshotOf, LiveOk, SimOk;
      var s := symbols[k];
      var idx := produced + 1;
      b, usedId := Heartbeat, false;
      if config.heartbeatInterval != 0 && idx % config.heartbeatInterval == 0 {
      } else if config.snapshotInterval != 0 && idx % config.snapshotInterval == 0 {
        b := s.MakeSnapshot(k);
      } else {
        b, usedId := s.OrderBody(config, k, nextOrderId, d);
      }
    }

    method Next(d: Draws) returns (m: Option<Message>)
      requires Valid() && MayDraw(config, State())
      modifies this, symbols
      ensures Valid() && MayDraw(config, State()) && AllLive(State()) && symbols == old(symbols)
      ensures (State(), m) == Produced(config, old(State()), d)
    {
      hide NextBody, LiveOk, AllLive, SimOk, Symbol.State;
      OkIsLive(config, State());
      ProducedOk(config, State(), d);
      OkIsLive(config, Produced(config, State(), d).0);
      if produced >= config.numMessages { return None; }
      var k := Draw(0, config.numSymbols - 1, d.symbol);
      var body, usedId := NextMessage(k, d);
      m := Some(Message(nextSeq, ts, body));
      nextSeq := (nextSeq + 1) % TWO32;
      ts := (ts + config.tsStep) % TWO64;
      if usedId { nextOrderId := (nextOrderId + 1) % TWO64; }
      states := states[k := symbols[k].State()];
      produced := produced + 1;
    }

    /** `run`: hands every message to the sink, here the returned list; `draws` are the draws of the calls
        of `next`, the last of which produces nothing. It may start anywhere in the stream. */
    method Run(draws: seq<Draws>) returns (ms: seq<Message>)
      requires Valid() && MayDraw(config, State()) && |draws| > Remaining(config, State())
      modifies this, symbols
      ensures Valid() && symbols == old(symbols) && Remaining(config, State()) == 0
      ensures (State(), ms) == GeneratedFrom(config, old(State()), draws[..Remaining(config, old(State()))])
    {
      hide SimOk, Produced, Holds;
      ms := [];
      var i := 0;
      ghost var start := State();
      while true
        invariant Valid() && MayDraw(config, State()) && symbols == old(symbols)
        invariant i + Remaining(config, State()) == Remaining(config, start)
        invariant (State(), ms) == GeneratedFrom(config, start, draws[..i])
        decreases |draws| - i
      {
        GeneratedNext(config, start, draws, i);
        var m := Next(draws[i]);
        if m.None? { break; }
        ms := ms + [m.value];
        i := i + 1;
      }
    }
  }

  /** How many messages are still to come. */
  function Remaining(c: SimConfig, st: SimState): nat {
    if st.produced < c.numMessages then c.numMessages - st.produced else 0
  }

  lemma OkIsLive(c: SimConfig, st: SimState)
    requires SimOk(c, st)
    ensures AllLive(st) && |st.symbols| == c.numSymbols
  {
    hide LiveOk;
  }

  lemma GeneratedNext(c: SimConfig, start: SimState, draws: seq<Draws>, i: nat)
    requires SimOk(c, start) && MayDraw(c, start) && c.numMessages < TWO64 && i < |draws|
    ensures var (st, ms) := GeneratedFrom(c, start, draws[..i]);
      AllLive(st) && |st.symbols| == c.numSymbols && MayDraw(c, st) &&
      var (next, m) := Produced(c, st, draws[i]);
      && (m.Some? <==> Remaining(c, st) > 0)
      && Remaining(c, next) == Remaining(c, st) - (if m.Some? then 1 else 0)
      && GeneratedFrom(c, start, draws[..i + 1]) == (next, if m.Some? then ms + [m.value] else ms)
      && (m.None? ==> next == st)
  {
    hide NextBody, LiveOk;
    assert draws[..i + 1][..i] == draws[..i];
    OkIsLive(c, GeneratedFrom(c, start, draws[..i]).0);
  }
}
