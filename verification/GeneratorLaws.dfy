/** What the generator's messages are, said with the draws and with the book its earlier messages build
    (src/simulator.cpp:49-190): which action falls due, whose order it names, at which price and quantity,
    under which id, number and time. */
module GeneratorLaws {
  import opened Protocol
  import opened FlatBook
  import opened BookBuilding
  import opened FeedLaws
  import opened Shown
  import opened Simulators
  import opened SimulatorLaws
  import opened EndToEnd

  /** The order message that the draws call for when `f` is the symbol's book. */
  ghost predicate Acts(c: SimConfig, refMid: int, d: Draws, nextId: nat, f: seq<Order>, b: Body)
    requires c.bandLevels > 0
  {
    var (r, k) := (Draw(0, 99, d.mix), Draw(0, c.bandLevels - 1, d.offset));
    var adds := f == [] || r < c.wAdd;
    var cancels := !adds && r < c.wAdd + c.wCancel;
    var amends := !adds && !cancels && r < c.wAdd + c.wCancel + c.wModify;
    match b
    case AddOrder(_, id, side, price, qty) =>
      && adds && id == nextId && side == Draw(0, 1, d.side) && qty == Draw(c.minQty, c.maxQty, d.qty)
      && PricedAt(c, refMid, f, side, k, price)
    case CancelOrder(_, id) =>
      cancels && Has(f, id)
    case ModifyOrder(_, id, price, qty) =>
      && amends && Has(f, id) && qty == Draw(c.minQty, c.maxQty, d.qty)
      && PricedAt(c, refMid, RemoveAt(f, IndexOf(f, id)), f[IndexOf(f, id)].side, k, price)
    case Trade(_, id, price, qty, aggressor) =>
      && !adds && !cancels && !amends && Has(f, id)
      && var o := f[IndexOf(f, id)];
         price == o.price && qty == Draw(1, o.quantity, d.fill) && aggressor == if o.side == 0 then 1 else 0
    case _ => false
  }

  /** The body of message number `n`: a heartbeat when one is due, else a snapshot when one is due, else an
      order message, for the symbol drawn. */
  ghost predicate Explains(c: SimConfig, d: Draws, n: nat, nextId: nat, books: Books, b: Body)
    requires CanDraw(c)
  {
    var symbol := Draw(0, c.numSymbols - 1, d.symbol);
    if c.heartbeatInterval != 0 && n % c.heartbeatInterval == 0 then b == Heartbeat
    else if c.snapshotInterval != 0 && n % c.snapshotInterval == 0 then ShowsBook(b, symbol, BookOf(books, symbol))
    else
      && IsOrderEvent(b) && b.symbol == symbol
      && Acts(c, c.startPrice + symbol * c.symbolPriceStep, d, nextId, BookOf(books, symbol), b)
  }

  lemma EmptyTogether(s: SymbolState, f: seq<Order>)
    requires LiveOk(s) && Mirrors(s.orders, f)
    ensures s.liveIds == [] <==> f == []
  {
    if f != [] {
      assert f[0] in f;
    }
    if s.liveIds != [] {
      assert Has(f, s.liveIds[0]);
    }
  }

  lemma AddActs(c: SimConfig, s: SymbolState, symbol: nat, f: seq<Order>, n: nat, id: nat, d: Draws)
    requires CanDraw(c) && SymbolOk(c, s, f, n, id) && (f == [] || Draw(0, 99, d.mix) < c.wAdd)
    ensures Acts(c, s.refMid, d, id, f, FillAdd(c, s, symbol, id, d).1)
  {
    hide LiveOk, FlatOk, Mirrors, ExactDepth, ChosenPrice, PricedAt, Registered;
    ExactKeys(s.bidQty, f, true);
    ExactKeys(s.askQty, f, false);
    var b := FillAdd(c, s, symbol, id, d).1;
    ChosenPriceIs(c, s, f, b.side, d);
  }

  lemma ModifyActs(c: SimConfig, s: SymbolState, symbol: nat, f: seq<Order>, n: nat, id: nat, d: Draws)
    requires CanDraw(c) && c.tick > 0 && SymbolOk(c, s, f, n, id) && s.liveIds != [] && f != []
    requires var r := Draw(0, 99, d.mix); c.wAdd <= r && c.wAdd + c.wCancel <= r < c.wAdd + c.wCancel + c.wModify
    ensures Acts(c, s.refMid, d, id, f, FillModify(c, s, symbol, d).1)
  {
    hide LiveOk, PickedId, FlatOk, Mirrors, ExactDepth, ChosenPrice, PricedAt, DepthMinus, DepthPlus, RemoveAt, IndexOf, TopAfter;
    PickedRests(s, f, d);
    var i := IndexOf(f, PickedId(s, d));
    var o := f[i];
    var without := DepthRemoved(s, o.side, o.price, o.quantity);
    DeletionOk(c, s, f, i, n, id);
    ExactKeys(without.bidQty, RemoveAt(f, i), true);
    ExactKeys(without.askQty, RemoveAt(f, i), false);
    ChosenPriceIs(c, without, RemoveAt(f, i), o.side, d);
  }

  lemma OrderMessageActs(c: SimConfig, s: SymbolState, symbol: nat, f: seq<Order>, n: nat, id: nat, d: Draws)
    requires CanDraw(c) && c.tick > 0 && SymbolOk(c, s, f, n, id)
    ensures var b := OrderMessage(c, s, symbol, id, d).1;
      IsOrderEvent(b) && b.symbol == symbol && Acts(c, s.refMid, d, id, f, b)
  {
    hide LiveOk, FlatOk, Mirrors, ExactDepth, ChosenPrice, PricedAt, PickedId, Registered, Unregistered, TopAfter;
    var r := Draw(0, 99, d.mix);
    EmptyTogether(s, f);
    if r < c.wAdd || s.liveIds == [] {
      AddActs(c, s, symbol, f, n, id, d);
    } else {
      PickedRests(s, f, d);
      if c.wAdd + c.wCancel <= r < c.wAdd + c.wCancel + c.wModify { ModifyActs(c, s, symbol, f, n, id, d); }
    }
  }

  lemma BodyExplained(c: SimConfig, st: SimState, ms: seq<Message>, d: Draws)
    requires GoodSim(c) && SimMirrors(c, st, ms) && AllLive(st) && st.produced < c.numMessages
    requires |st.symbols| == c.numSymbols && CanDraw(c)
    ensures Explains(c, d, |ms| + 1, st.nextOrderId, AppliedAll(ms).books, NextBody(c, st, d).1)
  {
    hide GoodSim, SymbolOk, OrderMessage, SnapshotOf, ShowsBook, Acts, AppliedAll, LiveOk, InOrder, AllFit, TopAfter;
    GoodBasics(c);
    var k := SymbolDrawn(c, d);
    var s, f := st.symbols[k], BookOf(AppliedAll(ms).books, k);
    Member(c, st.symbols, AppliedAll(ms).books, |ms|, st.nextOrderId, k);
    HasRoom(c, s, k, |ms|, st.nextOrderId);
    SnapshotAgrees(c, s, k, f, |ms|, st.nextOrderId);
    OrderMessageActs(c, s, k, f, |ms|, st.nextOrderId, d);
  }

  // ---- Runs ----

  function AddsIn(ms: seq<Message>): nat {
    if ms == [] then 0 else AddsIn(ms[..|ms| - 1]) + if ms[|ms| - 1].body.AddOrder? then 1 else 0
  }

  /** Everything about message `k` of a run: number, time, and what the draws of its call make it. Order
      ids are given out in the order of the adds. */
  ghost predicate Explained(c: SimConfig, draws: seq<Draws>, ms: seq<Message>, k: nat)
    requires CanDraw(c)
  {
    && k < |ms| && k < |draws|
    && ms[k].sequence == k + 1
    && ms[k].timestamp == (c.tsStart + k * c.tsStep) % 18446744073709551616
    && Explains(c, draws[k], k + 1, 1 + AddsIn(ms[..k]), AppliedAll(ms[..k]).books, ms[k].body)
  }

  /** The clock and the id counter after `ms`. */
  ghost predicate Clocked(c: SimConfig, st: SimState, ms: seq<Message>) {
    st.ts == (c.tsStart + |ms| * c.tsStep) % TWO64 && st.nextOrderId == 1 + AddsIn(ms)
  }

  lemma NextClock(c: SimConfig, n: nat)
    ensures ((c.tsStart + n * c.tsStep) % TWO64 + c.tsStep) % TWO64 == (c.tsStart + (n + 1) * c.tsStep) % TWO64
  {
    assert (n + 1) * c.tsStep == n * c.tsStep + c.tsStep;
    AddWraps(c.tsStart + n * c.tsStep, c.tsStep);
  }

  lemma NextExplained(c: SimConfig, st: SimState, ms: seq<Message>, d: Draws)
    requires GoodSim(c) && SimMirrors(c, st, ms) && Clocked(c, st, ms) && AllLive(st) && st.produced < c.numMessages
    requires |st.symbols| == c.numSymbols && CanDraw(c)
    ensures var (next, m) := Produced(c, st, d);
      && m.Some? && Clocked(c, next, ms + [m.value])
      && m.value.sequence == |ms| + 1 && m.value.timestamp == (c.tsStart + |ms| * c.tsStep) % TWO64
      && Explains(c, d, |ms| + 1, 1 + AddsIn(ms), AppliedAll(ms).books, m.value.body)
  {
    hide GoodSim, Explains, NextBody, AllAgree, LiveOk, AllLive, AppliedAll, InOrder, AllFit, KnownSymbols, AddsIn;
    BodyExplained(c, st, ms, d);
    NextClock(c, |ms|);
    MessagesFit(c);
    UsesAnId(c, st, d);
    AddsNext(ms, Produced(c, st, d).1.value);
  }

  lemma AddsNext(ms: seq<Message>, m: Message)
    ensures AddsIn(ms + [m]) == AddsIn(ms) + if m.body.AddOrder? then 1 else 0
  {
    assert (ms + [m])[..|ms|] == ms;
  }

  lemma UsesAnId(c: SimConfig, st: SimState, d: Draws)
    requires CanDraw(c) && |st.symbols| == c.numSymbols && AllLive(st)
    ensures NextBody(c, st, d).2 <==> NextBody(c, st, d).1.AddOrder?
  {
    hide LiveOk, ChosenPrice, PickedId, Registered, Unregistered, SnapshotSide;
  }

  lemma {:induction false} RunClocked(c: SimConfig, draws: seq<Draws>)
    requires GoodSim(c)
    ensures c.numMessages < TWO64 && CanDraw(c)
    ensures var (st, ms) := Generated(c, draws);
      && Clocked(c, st, ms) && |ms| == (if |draws| < c.numMessages then |draws| else c.numMessages)
      && forall k :: 0 <= k < |ms| ==> Explained(c, draws, ms, k)
  {
    hide GoodSim, SimMirrors, Produced, Explains, Fresh, AllLive, Clocked;
    GoodBasics(c);
    MessagesFit(c);
    if draws == [] {
      StartsClocked(c);
    } else {
      var front, d := draws[..|draws| - 1], draws[|draws| - 1];
      var (st, ms) := Generated(c, front);
      RunClocked(c, front);
      RunMirrors(c, front);
      CountsProduced(c, st, ms);
      if st.produced < c.numMessages {
        NextExplained(c, st, ms, d);
        var m := Produced(c, st, d).1.value;
        forall k | 0 <= k <= |ms| ensures Explained(c, draws, ms + [m], k) {
          assert (ms + [m])[..k] == ms[..k];
          if k < |ms| { assert Explained(c, front, ms, k); }
        }
      } else {
        NothingProduced(c, st, d);
        forall k | 0 <= k < |ms| ensures Explained(c, draws, ms, k) { assert Explained(c, front, ms, k); }
      }
    }
  }

  lemma CountsProduced(c: SimConfig, st: SimState, ms: seq<Message>)
    requires SimMirrors(c, st, ms)
    ensures |ms| == st.produced <= c.numMessages && |st.symbols| == c.numSymbols && AllLive(st)
  {
    hide SymbolOk, LiveOk, AppliedAll;
    AgreeIsLive(c, st, AppliedAll(ms).books, |ms|, st.nextOrderId);
  }

  lemma StartsClocked(c: SimConfig)
    requires c.tsStart < TWO64
    ensures Clocked(c, Fresh(c), [])
  {
  }

  /** Every message of every run is explained by the draws of its call and the messages before it, and a run
      produces one message a call until `numMessages` are out. */
  lemma EveryMessageExplained(c: SimConfig, draws: seq<Draws>, k: nat)
    requires GoodSim(c)
    ensures c.numMessages < TWO64 && CanDraw(c)
    ensures var ms := Generated(c, draws).1;
      && |ms| == (if |draws| < c.numMessages then |draws| else c.numMessages)
      && (k < |ms| ==> Explained(c, draws, ms, k))
  {
    hide GoodSim, Generated, Explained;
    RunClocked(c, draws);
  }
}
