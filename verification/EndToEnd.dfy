/** The whole chain: generator, encoder, arbitrary chunking, parser, sequence filter, book builder
    (src/simulator.cpp, include/mdfh/serialization.hpp, include/mdfh/feed_handler.hpp,
    src/book_builder.cpp). The books at the far end are the generator's live orders. */
module EndToEnd {
  import opened Protocol
  import opened SequenceTracking
  import opened FlatBook
  import opened BookBuilding
  import opened Parsing
  import opened FeedHandling
  import opened FeedLaws
  import opened Shown
  import opened Simulators
  import opened SimulatorLaws

  // ---- Generator runs ----

  /** Numbered 1, 2, 3 and so on. */
  ghost predicate InOrder(ms: seq<Message>) {
    forall k :: 0 <= k < |ms| ==> ms[k].sequence == k + 1
  }

  ghost predicate AllFit(ms: seq<Message>) {
    forall m :: m in ms ==> Fits(m)
  }

  /** Every symbol of the generator agrees with the book of that symbol. */
  ghost predicate AllAgree(c: SimConfig, symbols: seq<SymbolState>, books: Books, n: nat, nextId: nat) {
    |symbols| == c.numSymbols
    && forall i :: 0 <= i < |symbols| ==>
         symbols[i].refMid == RefMid(c, i) && SymbolOk(c, symbols[i], BookOf(books, i), n, nextId)
  }

  /** No book belongs to a symbol the generator does not have. */
  ghost predicate KnownSymbols(c: SimConfig, books: Books) {
    forall s :: s in books ==> s < c.numSymbols
  }

  /** The generator mirrors the books its messages build when applied in order. */
  ghost predicate SimMirrors(c: SimConfig, st: SimState, ms: seq<Message>) {
    && |ms| == st.produced <= c.numMessages
    && st.nextSeq == (|ms| + 1) % TWO32 && st.nextOrderId <= |ms| + 1 && st.ts < TWO64
    && AppliedAll(ms).stats.rejected == 0 && AppliedAll(ms).stats.malformed == 0
    && AllAgree(c, st.symbols, AppliedAll(ms).books, |ms|, st.nextOrderId) && KnownSymbols(c, AppliedAll(ms).books)
    && InOrder(ms) && AllFit(ms)
  }

  lemma MessagesFit(c: SimConfig)
    requires GoodSim(c)
    ensures c.numMessages < TWO32 && (c.numMessages > 0 ==> c.maxQty < TWO32)
  {
    TimesMonotone(1, c.maxQty, c.numMessages);
    if c.numMessages > 0 { TimesMonotone(1, c.numMessages, c.maxQty); }
  }

  lemma HasRoom(c: SimConfig, s: SymbolState, symbol: nat, n: nat, id: nat)
    requires GoodSim(c) && n < c.numMessages && symbol < c.numSymbols && s.refMid == RefMid(c, symbol) && id <= n + 1
    ensures Room(c, s, symbol, n, id) && TopAfter(c, s.refMid, n) < TWO63
  {
    MessagesFit(c);
    TimesMonotone(n + 1, c.numMessages, c.maxQty);
    TopMonotone(c, s.refMid, n + 1, c.numMessages);
    TopMonotone(c, s.refMid, n, c.numMessages);
    assert TopAfter(c, RefMid(c, symbol), c.numMessages) < TWO63;
    hide TopAfter;
  }

  lemma TopMonotone(c: SimConfig, refMid: int, n: nat, m: nat)
    requires n <= m && c.tick > 0
    ensures TopAfter(c, refMid, n) <= TopAfter(c, refMid, m)
  {
    TimesMonotone(0, c.bandLevels, c.tick);
    TimesMonotone(n, m, c.bandLevels * c.tick);
  }

  /** One symbol moves, the others wait. */
  lemma OthersAgree(c: SimConfig, symbols: seq<SymbolState>, books: Books, n: nat, id: nat, later: nat,
                    k: nat, s: SymbolState, after: Books)
    requires AllAgree(c, symbols, books, n, id) && id <= later && c.tick > 0 && k < |symbols|
    requires s.refMid == symbols[k].refMid && SymbolOk(c, s, BookOf(after, k), n + 1, later)
    requires forall i :: 0 <= i < |symbols| && i != k ==> BookOf(after, i) == BookOf(books, i)
    ensures AllAgree(c, symbols[k := s], after, n + 1, later)
  {
    hide SymbolOk, RefMid;
    forall i | 0 <= i < |symbols| && i != k ensures SymbolOk(c, symbols[i], BookOf(after, i), n + 1, later) {
      SymbolLater(c, symbols[i], BookOf(books, i), n, id, later);
    }
  }

  lemma AgreeIsLive(c: SimConfig, st: SimState, books: Books, n: nat, id: nat)
    requires AllAgree(c, st.symbols, books, n, id)
    ensures AllLive(st) && |st.symbols| == c.numSymbols
  {
    hide LiveOk;
  }

  lemma OrderMessageKeepsMid(c: SimConfig, s: SymbolState, symbol: nat, id: nat, d: Draws)
    requires LiveOk(s)
    ensures OrderMessage(c, s, symbol, id, d).0.refMid == s.refMid
  {
    hide LiveOk, DepthPlus, DepthMinus, ChosenPrice, PickedId;
  }

  /** An order message that the builder accepts changes one book and rejects nothing. */
  lemma AppliedAccepted(b: BuilderState, m: Body)
    requires IsOrderEvent(m) && Apply(BookOf(b.books, SymbolOf(m)), OpOf(m)).1
    ensures var a := Applied(b, m);
      && a.stats.rejected == b.stats.rejected && a.stats.malformed == b.stats.malformed
      && BookOf(a.books, SymbolOf(m)) == Apply(BookOf(b.books, SymbolOf(m)), OpOf(m)).0
      && a.books.Keys == b.books.Keys + {SymbolOf(m)}
      && forall i :: i != SymbolOf(m) ==> BookOf(a.books, i) == BookOf(b.books, i)
  {
    hide Apply;
  }

  lemma AppliedOther(b: BuilderState, m: Body)
    requires !IsOrderEvent(m)
    ensures var a := Applied(b, m);
      a.stats.rejected == b.stats.rejected && a.stats.malformed == b.stats.malformed && a.books == b.books
  {
  }

  /** The symbol drawn and the builder after its message, in agreement. */
  lemma BodyAgrees(c: SimConfig, st: SimState, b: BuilderState, n: nat, d: Draws)
    requires GoodSim(c) && n == st.produced < c.numMessages && st.nextOrderId <= n + 1
    requires AllAgree(c, st.symbols, b.books, n, st.nextOrderId) && KnownSymbols(c, b.books) && AllLive(st)
    ensures var (s, m, used) := NextBody(c, st, d);
      var k := SymbolDrawn(c, d);
      var (a, later) := (Applied(b, m), if used then st.nextOrderId + 1 else st.nextOrderId);
      && a.stats.rejected == b.stats.rejected && a.stats.malformed == b.stats.malformed
      && AllAgree(c, st.symbols[k := s], a.books, n + 1, later) && KnownSymbols(c, a.books) && BodyFits(m)
      && (m.BookSnapshot? ==>
            var f := BookOf(b.books, m.symbol);
            m == SnapshotOf(m.symbol, Depth(f, true), Depth(f, false)) && ShowsBook(m, m.symbol, f))
  {
    hide SymbolOk, OrderMessage, Apply, Applied, TopAfter, Room, RefMid, LiveOk, SnapshotOf, Depth,
         GoodSim, DueEvery, AllAgree, ShowsBook;
    GoodBasics(c);
    AgreeIsLive(c, st, b.books, n, st.nextOrderId);
    var k := SymbolDrawn(c, d);
    var s := st.symbols[k];
    var f := BookOf(b.books, k);
    Member(c, st.symbols, b.books, n, st.nextOrderId, k);
    HasRoom(c, s, k, n, st.nextOrderId);
    var (t, m, used) := NextBody(c, st, d);
    var later := if used then st.nextOrderId + 1 else st.nextOrderId;
    if DueEvery(c.heartbeatInterval, n + 1) || DueEvery(c.snapshotInterval, n + 1) {
      SnapshotAgrees(c, s, k, f, n, st.nextOrderId);
      SnapshotIs(k, s.bidQty, s.askQty);
      SymbolLater(c, s, f, n, st.nextOrderId, later);
      AppliedOther(b, m);
    } else {
      OrderMessageOk(c, s, k, f, n, st.nextOrderId, d);
      OrderMessageKeepsMid(c, s, k, st.nextOrderId, d);
      AppliedAccepted(b, m);
    }
    OthersAgree(c, st.symbols, b.books, n, st.nextOrderId, later, k, t, Applied(b, m).books);
  }

  lemma GoodBasics(c: SimConfig)
    requires GoodSim(c)
    ensures CanDraw(c) && c.tick > 0 && c.numSymbols < TWO32 && c.tsStart < TWO64
    ensures forall i :: 0 <= i < c.numSymbols ==> c.tick <= RefMid(c, i)
  {
  }

  lemma Member(c: SimConfig, symbols: seq<SymbolState>, books: Books, n: nat, id: nat, k: nat)
    requires AllAgree(c, symbols, books, n, id) && k < |symbols|
    ensures symbols[k].refMid == RefMid(c, k) && SymbolOk(c, symbols[k], BookOf(books, k), n, id)
  {
  }

  lemma SnapshotIs(symbol: nat, bids: map<int, nat>, asks: map<int, nat>)
    ensures SnapshotOf(symbol, bids, asks).BookSnapshot? && SnapshotOf(symbol, bids, asks).symbol == symbol
  {
  }

  lemma OneMore(ms: seq<Message>, m: Message)
    requires InOrder(ms) && AllFit(ms) && m.sequence == |ms| + 1 && Fits(m)
    ensures InOrder(ms + [m]) && AllFit(ms + [m])
  {
    hide Fits;
  }

  /** One call of `next` keeps generator and books in agreement, and a snapshot it emits is the snapshot of
      the book built from the messages before it. */
  lemma NextMirrors(c: SimConfig, st: SimState, ms: seq<Message>, d: Draws)
    requires GoodSim(c) && SimMirrors(c, st, ms) && AllLive(st) && st.produced < c.numMessages
    ensures var (next, m) := Produced(c, st, d);
      && m.Some? && SimMirrors(c, next, ms + [m.value])
      && SnapshotFollows(ms, m.value.body)
  {
    hide ShowsBook, GoodSim, NextBody, AllAgree, KnownSymbols, AllLive, LiveOk, BodyFits, InOrder, AllFit, Applied, SnapshotOf, Depth;
    GoodBasics(c);
    MessagesFit(c);
    AgreeIsLive(c, st, AppliedAll(ms).books, |ms|, st.nextOrderId);
    BodyAgrees(c, st, AppliedAll(ms), |ms|, d);
    var m := Produced(c, st, d).1.value;
    AppliedLast(ms, m);
    hide AppliedAll;
    OneMore(ms, m);
  }

  /** A snapshot after `ms` shows the book those messages build: same counts, prices and quantities, best
      first; an empty book if the symbol has none. */
  ghost predicate SnapshotFollows(ms: seq<Message>, b: Body) {
    b.BookSnapshot? ==>
      var f := BookOf(AppliedAll(ms).books, b.symbol);
      b == SnapshotOf(b.symbol, Depth(f, true), Depth(f, false)) && ShowsBook(b, b.symbol, f)
  }

  lemma FreshMirrors(c: SimConfig)
    requires GoodSim(c)
    ensures SimMirrors(c, Fresh(c), [])
  {
    hide RefMid;
    GoodBasics(c);
    forall i | 0 <= i < c.numSymbols ensures SymbolOk(c, NewSymbol(RefMid(c, i)), [], 0, 1) {
      assert c.tick <= RefMid(c, i);
    }
  }

  /** The run-level invariant of the generator. */
  lemma {:induction false} RunMirrors(c: SimConfig, draws: seq<Draws>)
    requires GoodSim(c)
    ensures c.numMessages < TWO64 && CanDraw(c)
    ensures var (st, ms) := Generated(c, draws); SimMirrors(c, st, ms)
    ensures var (st, ms) := Generated(c, draws); forall k :: 0 <= k < |ms| ==> SnapshotFollows(ms[..k], ms[k].body)
  {
    hide GoodSim, SimMirrors, Produced, SnapshotFollows, Fresh, AllLive;
    GoodBasics(c);
    MessagesFit(c);
    if draws == [] {
      FreshMirrors(c);
    } else {
      var front, d := draws[..|draws| - 1], draws[|draws| - 1];
      var (st, ms) := Generated(c, front);
      RunMirrors(c, front);
      if st.produced < c.numMessages {
        NextMirrors(c, st, ms, d);
        var m := Produced(c, st, d).1.value;
        forall k | 0 <= k <= |ms| ensures SnapshotFollows((ms + [m])[..k], (ms + [m])[k].body) {
          assert (ms + [m])[..k] == ms[..k];
        }
      } else {
        NothingProduced(c, st, d);
      }
    }
  }

  lemma NothingProduced(c: SimConfig, st: SimState, d: Draws)
    requires CanDraw(c) && |st.symbols| == c.numSymbols && AllLive(st) && st.produced >= c.numMessages
    ensures Produced(c, st, d) == (st, None)
  {
  }

  // ---- What holds in every reachable state of the generator ----

  /** The market is never crossed. In every reachable state each bid level is at least one tick and each ask
      level at least two, every bid level is below every ask level, and so is the book. */
  lemma UncrossedMarket(c: SimConfig, draws: seq<Draws>, i: nat)
    requires GoodSim(c) && i < c.numSymbols
    ensures c.numMessages < TWO64 && CanDraw(c)
    ensures var (st, ms) := Generated(c, draws);
      && !Crossed(BookOf(AppliedAll(ms).books, i))
      && (forall p :: p in st.symbols[i].bidQty ==> p >= c.tick)
      && (forall q :: q in st.symbols[i].askQty ==> q >= 2 * c.tick)
      && (forall p, q :: p in st.symbols[i].bidQty && q in st.symbols[i].askQty ==> p < q)
  {
    hide GoodSim, LiveOk, Mirrors, ExactDepth, TopAfter, Crossed, ValidFlat, AppliedAll, Generated;
    RunMirrors(c, draws);
    var (st, ms) := Generated(c, draws);
    var s, f := st.symbols[i], BookOf(AppliedAll(ms).books, i);
    Member(c, st.symbols, AppliedAll(ms).books, |ms|, st.nextOrderId, i);
    LevelsOrdered(c, s, f, |ms|, st.nextOrderId);
  }

  lemma LevelsOrdered(c: SimConfig, s: SymbolState, f: seq<Order>, n: nat, id: nat)
    requires SymbolOk(c, s, f, n, id)
    ensures forall p :: p in s.bidQty ==> p >= c.tick
    ensures forall q :: q in s.askQty ==> q >= 2 * c.tick
    ensures forall p, q :: p in s.bidQty && q in s.askQty ==> p < q
  {
    hide LiveOk, ExactDepth, TopAfter, ValidFlat, Mirrors;
    ExactKeys(s.bidQty, f, true);
    ExactKeys(s.askQty, f, false);
    assert forall p :: p in s.bidQty.Keys ==> p in Prices(f, true);
    assert forall q :: q in s.askQty.Keys ==> q in Prices(f, false);
  }

  /** The aggregates are exact. In every reachable state a symbol's depth maps hold, for each price that has a
      live order and for no other, the sum of the live quantities there; the live orders are the orders of
      the book; and `live_ids` and `index` are inverse over their ids. */
  lemma ExactAggregates(c: SimConfig, draws: seq<Draws>, i: nat)
    requires GoodSim(c) && i < c.numSymbols
    ensures c.numMessages < TWO64 && CanDraw(c)
    ensures var (st, ms) := Generated(c, draws);
      var (s, f) := (st.symbols[i], BookOf(AppliedAll(ms).books, i));
      && Mirrors(s.orders, f) && UniqueIds(f) && LiveOk(s)
      && (forall p :: p in s.bidQty <==> Queue(f, true, p) != [])
      && (forall p :: p in s.askQty <==> Queue(f, false, p) != [])
      && (forall p :: p in s.bidQty ==> s.bidQty[p] == Total(Queue(f, true, p)) > 0)
      && (forall p :: p in s.askQty ==> s.askQty[p] == Total(Queue(f, false, p)) > 0)
  {
    hide GoodSim, LiveOk, Mirrors, TopAfter, Crossed, ValidFlat, AppliedAll, Generated, Queue, Total;
    RunMirrors(c, draws);
    var (st, ms) := Generated(c, draws);
    var s, f := st.symbols[i], BookOf(AppliedAll(ms).books, i);
    Member(c, st.symbols, AppliedAll(ms).books, |ms|, st.nextOrderId, i);
    ValidIsUnique(f);
    FlatIsSized(c, f, |ms|, TopAfter(c, s.refMid, |ms|), st.nextOrderId);
    hide Sized, UniqueIds, FlatOk;
    forall p, buy ensures Queue(f, buy, p) != [] ==> Total(Queue(f, buy, p)) > 0 { TotalBound(f, buy, p, c.maxQty); }
  }

  /** Every snapshot in the stream is the snapshot of the book built from the messages before it. */
  lemma SnapshotAgreement(c: SimConfig, draws: seq<Draws>, k: nat)
    requires GoodSim(c)
    ensures c.numMessages < TWO64 && CanDraw(c)
    ensures var ms := Generated(c, draws).1;
      k < |ms| && ms[k].body.BookSnapshot? ==>
        var f := BookOf(AppliedAll(ms[..k]).books, ms[k].body.symbol);
        ms[k].body == SnapshotOf(ms[k].body.symbol, Depth(f, true), Depth(f, false))
        && ShowsBook(ms[k].body, ms[k].body.symbol, f)
  {
    hide ShowsBook, GoodSim, SimMirrors, AppliedAll, Generated, Depth, SnapshotOf;
    RunMirrors(c, draws);
    var ms := Generated(c, draws).1;
    if k < |ms| { assert SnapshotFollows(ms[..k], ms[k].body); }
  }

  // ---- Through the wire ----

  /** Messages numbered in order are all forwarded, so the builder sees every one of them. */
  lemma {:induction false} InOrderDelivery(ms: seq<Message>)
    requires InOrder(ms) && |ms| < TWO32
    ensures var f := Delivery(ms);
      f.down == AppliedAll(ms) && f.forwarded == |ms| && f.dropped == 0 && f.malformed == 0
  {
    hide Observed, Applied, Accepts, After, Exceeds;
    if ms == [] {
    } else {
      var front, last := ms[..|ms| - 1], ms[|ms| - 1];
      InOrderDelivery(front);
      DeliveryTracks(front);
      InOrderNumbers(front, last.sequence);
      AcceptsIffExceeds(Numbers(front), last.sequence);
      ForwardsIffAccepts(After(Numbers(front)), last.sequence);
    }
  }

  lemma InOrderNumbers(front: seq<Message>, next: nat)
    requires InOrder(front) && next == |front| + 1 < TWO32
    ensures In32Bits(Numbers(front)) && MAX_SEQ !in Numbers(front) && Exceeds(next, Numbers(front))
  {
  }

  lemma {:induction false} EventsAppend(ms: seq<Message>, m: Message)
    ensures Events(ms + [m]) == Events(ms) + [Event(m)]
  {
    if ms == [] {
      assert [m][1..] == [];
    } else {
      assert (ms + [m])[1..] == ms[1..] + [m];
      EventsAppend(ms[1..], m);
    }
  }

  /** Delivering the events of some messages one by one is what `Delivery` computes, and none is malformed. */
  lemma {:induction false} EventsDeliver(ms: seq<Message>)
    ensures DeliveredAll(FRESH_FEED, Events(ms)) == Delivery(ms) && MalformedIn(Events(ms)) == 0
  {
    hide Delivered;
    if ms == [] {
      NothingDelivered(FRESH_FEED);
    } else {
      var front, last := ms[..|ms| - 1], ms[|ms| - 1];
      EventsDeliver(front);
      EventsAppend(front, last);
      assert ms == front + [last];
      Appended(FRESH_FEED, Events(front), Event(last));
    }
  }

  /** Messages that fit survive encoding, any chunking and reassembly: the handler ends as if the messages
      themselves had been delivered one by one, and no byte is pending. */
  lemma WireIsTransparent(ms: seq<Message>, chunks: seq<seq<byte>>)
    requires AllFit(ms) && Concat(chunks) == Bytes(ms)
    ensures Streamed(FRESH_FEED, chunks) == Delivery(ms) && Delivery(ms).residual == []
  {
    hide Bytes, Fits, DeliveredAll, Delivery, Streamed, MalformedIn;
    ChunkedRoundTrip(ms, chunks);
    StreamedIsDelivery(FRESH_FEED, chunks);
    EventsDeliver(ms);
    DeliveryKeepsResidual(FRESH_FEED, [], Events(ms));
  }

  /** So the laws of the filter hold of bytes: a stale message inserted anywhere in the byte stream, however
      either stream is cut, leaves every book and counter of the builder as it was. */
  lemma StaleBytesAreHarmless(a: seq<Message>, stale: Message, b: seq<Message>, chunks: seq<seq<byte>>, more: seq<seq<byte>>)
    requires AllFit(a + [stale] + b) && Numbered(a + b) && Stale(stale, a)
    requires Concat(chunks) == Bytes(a + b) && Concat(more) == Bytes(a + [stale] + b)
    ensures Streamed(FRESH_FEED, more).down == Streamed(FRESH_FEED, chunks).down
  {
    hide Bytes, Fits, Delivery, Streamed, Stale;
    assert forall m :: m in a + b ==> m in a + [stale] + b;
    WireIsTransparent(a + b, chunks);
    WireIsTransparent(a + [stale] + b, more);
    StaleIsHarmless(a, stale, b);
  }

  /** And so does sending the whole byte stream twice. */
  lemma ReplayedBytes(ms: seq<Message>, once: seq<seq<byte>>, twice: seq<seq<byte>>)
    requires AllFit(ms) && Numbered(ms) && Concat(once) == Bytes(ms) && Concat(twice) == Bytes(ms) + Bytes(ms)
    ensures Streamed(FRESH_FEED, twice).down == Streamed(FRESH_FEED, once).down
  {
    hide Bytes, Fits, Delivery, Streamed;
    BytesConcat(ms, ms);
    WireIsTransparent(ms, once);
    WireIsTransparent(ms + ms, twice);
    ReplayedTwice(ms);
  }

  /** End to end. For every generator run, with any draws, encoding its messages, cutting the bytes into
      arbitrary chunks and consuming those leaves each symbol's book with exactly the generator's live
      orders (id, side, price, quantity), in a book that is not crossed, and no other books; nothing was
      rejected, dropped or malformed, and no byte is pending. */
  lemma GeneratorToBooks(c: SimConfig, draws: seq<Draws>, chunks: seq<seq<byte>>)
    requires GoodSim(c)
    ensures c.numMessages < TWO64 && CanDraw(c)
    ensures var (st, ms) := Generated(c, draws);
      Concat(chunks) == Bytes(ms) ==>
        var f := Streamed(FRESH_FEED, chunks);
        && f.down.stats.rejected == 0 && f.dropped == 0 && f.malformed == 0 && f.down.stats.malformed == 0
        && f.forwarded == |ms| && f.residual == [] && KnownSymbols(c, f.down.books)
        && forall i :: 0 <= i < c.numSymbols ==>
             Mirrors(st.symbols[i].orders, BookOf(f.down.books, i)) && ValidFlat(BookOf(f.down.books, i))
             && !Crossed(BookOf(f.down.books, i))
  {
    hide GoodSim, LiveOk, Mirrors, ExactDepth, TopAfter, Crossed, ValidFlat, AppliedAll, Generated, Bytes,
         Streamed, Delivery, InOrder, AllFit;
    RunMirrors(c, draws);
    MessagesFit(c);
    var (st, ms) := Generated(c, draws);
    if Concat(chunks) == Bytes(ms) {
      WireIsTransparent(ms, chunks);
      InOrderDelivery(ms);
      forall i | 0 <= i < c.numSymbols
        ensures Mirrors(st.symbols[i].orders, BookOf(AppliedAll(ms).books, i)) && ValidFlat(BookOf(AppliedAll(ms).books, i))
             && !Crossed(BookOf(AppliedAll(ms).books, i))
      {
        Member(c, st.symbols, AppliedAll(ms).books, |ms|, st.nextOrderId, i);
      }
    }
  }
}
