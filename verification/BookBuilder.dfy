/** One book per symbol and the application of events to them (include/mdfh/book_builder.hpp,
    src/book_builder.cpp). The state as a value is a map from symbol to flat list and the counters. */
module BookBuilding {
  import opened Protocol
  import opened FlatBook
  import opened OrderBooks

  datatype BookStats = BookStats(adds: nat, cancels: nat, modifications: nat, trades: nat,
                                 snapshots: nat, heartbeats: nat, malformed: nat, rejected: nat)

  type Books = map<nat, seq<Order>>

  datatype BuilderState = BuilderState(books: Books, stats: BookStats)

  const NO_STATS: BookStats := BookStats(0, 0, 0, 0, 0, 0, 0, 0)
  const EMPTY: BuilderState := BuilderState(map[], NO_STATS)

  /** The book of a symbol; empty when it has none yet. */
  function BookOf(books: Books, symbol: nat): seq<Order> {
    if symbol in books then books[symbol] else []
  }

  ghost predicate Distinct(order: seq<nat>) {
    forall i, j :: 0 <= i < j < |order| ==> order[i] != order[j]
  }

  /** An order in which `for_each` may visit the books, which live in an unordered map: every symbol once. */
  ghost predicate Enumerates(order: seq<nat>, books: Books) {
    (forall s :: s in order <==> s in books) && Distinct(order)
  }

  predicate IsOrderEvent(b: Body) {
    b.AddOrder? || b.CancelOrder? || b.ModifyOrder? || b.Trade?
  }

  function SymbolOf(b: Body): nat
    requires IsOrderEvent(b)
  {
    b.symbol
  }

  /** The book mutation an order message stands for. */
  function OpOf(b: Body): Op
    requires IsOrderEvent(b)
  {
    match b
    case AddOrder(_, id, side, price, qty) => Op.Add(id, side, price, qty)
    case CancelOrder(_, id) => Op.Cancel(id)
    case ModifyOrder(_, id, price, qty) => Op.Modify(id, price, qty)
    case Trade(_, id, _, qty, _) => Op.Execute(id, qty)
  }

  function Counted(s: BookStats, b: Body): BookStats {
    match b
    case AddOrder(_, _, _, _, _) => s.(adds := s.adds + 1)
    case CancelOrder(_, _) => s.(cancels := s.cancels + 1)
    case ModifyOrder(_, _, _, _) => s.(modifications := s.modifications + 1)
    case Trade(_, _, _, _, _) => s.(trades := s.trades + 1)
    case BookSnapshot(_, _, _, _, _) => s.(snapshots := s.snapshots + 1)
    case Heartbeat => s.(heartbeats := s.heartbeats + 1)
  }

  /** The builder after one event. Snapshots are counted and not applied. */
  function Applied(s: BuilderState, b: Body): BuilderState {
    var stats := Counted(s.stats, b);
    if !IsOrderEvent(b) then s.(stats := stats)
    else
      var (book, ok) := Apply(BookOf(s.books, SymbolOf(b)), OpOf(b));
      BuilderState(s.books[SymbolOf(b) := book],
                   if ok then stats else stats.(rejected := stats.rejected + 1))
  }

  function MalformedSeen(s: BuilderState): BuilderState {
    s.(stats := s.stats.(malformed := s.stats.malformed + 1))
  }

  function EventCount(s: BookStats): nat {
    s.adds + s.cancels + s.modifications + s.trades + s.snapshots + s.heartbeats
  }

  lemma AppliedCounts(s: BuilderState, b: Body)
    ensures EventCount(Applied(s, b).stats) == EventCount(s.stats) + 1
    ensures Applied(s, b).stats.malformed == s.stats.malformed
    ensures EventCount(MalformedSeen(s).stats) == EventCount(s.stats)
    ensures MalformedSeen(s).stats.malformed == s.stats.malformed + 1
  {
  }

  class BookManager {
    var books: map<nat, OrderBook>
    ghost var flats: Books
    ghost var owned: set<OrderBook>

    /** Every book but perhaps that of `except` agrees with its flat list. */
    ghost predicate ValidBut(except: set<nat>)
      reads this, owned
    {
      books.Keys == flats.Keys
      && forall s :: s in books ==>
           books[s] in owned && books[s].symbol == s && books[s].Valid() && (s !in except ==> books[s].flat == flats[s])
    }

    ghost predicate Valid()
      reads this, owned
    {
      ValidBut({})
    }

    constructor ()
      ensures Valid() && flats == map[] && owned == {}
    {
      books, flats, owned := map[], map[], {};
    }

    /** The symbol's book, created on first use. */
    method Book(symbol: nat) returns (b: OrderBook)
      requires Valid()
      modifies this
      ensures Valid() && symbol in books && books[symbol] == b && b.symbol == symbol
      ensures flats == old(flats)[symbol := BookOf(old(flats), symbol)] && b.flat == flats[symbol]
      ensures b.Valid() && b in owned && fresh(owned - old(owned))
    {
      hide OrderBook.Valid;
      if symbol !in books {
        var created := new OrderBook(symbol);
        books := books[symbol := created];
        flats := flats[symbol := []];
        owned := owned + {created};
      }
      b := books[symbol];
    }

    /** The symbol's book if it has one; nothing is created. */
    method Find(symbol: nat) returns (b: Option<OrderBook>)
      requires Valid()
      ensures b.Some? <==> symbol in flats
      ensures b.Some? ==> b.value.Valid() && b.value.symbol == symbol && b.value.flat == flats[symbol]
    {
      hide OrderBook.Valid;
      b := if symbol in books then Some(books[symbol]) else None;
    }

    /** True exactly when no book is crossed. */
    method CheckAllInvariants() returns (ok: bool)
      requires Valid()
      ensures ok <==> forall s :: s in flats ==> !Crossed(flats[s])
    {
      hide OrderBook.Valid, Crossed;
      var rest := books.Keys;
      while rest != {}
        invariant rest <= books.Keys
        invariant forall s :: s in flats && s !in rest ==> !Crossed(flats[s])
        decreases |rest|
      {
        var s :| s in rest;
        var good := books[s].CheckInvariants();
        if !good { return false; }
        rest := rest - {s};
      }
      ok := true;
    }

    /** A mutation of one book leaves every other as it was. */
    twostate lemma OneChanged(b: OrderBook)
      requires old(Valid()) && b.symbol in books && books[b.symbol] == b && b.Valid()
      requires unchanged(this) && forall c :: c in owned && c != b ==> unchanged(c)
      ensures ValidBut({b.symbol})
    {
      hide OrderBook.Valid;
      forall s | s in books && s != b.symbol
        ensures books[s] in owned && books[s].symbol == s && books[s].Valid() && books[s].flat == flats[s]
      {
        var c := books[s];
        assert c == old(books)[s] && c in old(owned) && c.symbol == s && old(c.Valid());
        assert c in owned && c != b;
        assert unchanged(c);
      }
    }

    ghost method Note(b: OrderBook)
      requires b.symbol in books && books[b.symbol] == b && ValidBut({b.symbol})
      modifies this`flats
      ensures Valid() && flats == old(flats)[b.symbol := b.flat]
    {
      hide OrderBook.Valid;
      flats := flats[b.symbol := b.flat];
    }
  }

  class BookBuilder {
    const manager: BookManager
    var stats: BookStats

    ghost predicate Valid()
      reads this, manager, manager.owned
    {
      manager.Valid()
    }

    ghost function State(): BuilderState
      reads this, manager
    {
      BuilderState(manager.flats, stats)
    }

    constructor ()
      ensures Valid() && State() == EMPTY
      ensures fresh(manager) && manager.owned == {}
    {
      manager := new BookManager();
      stats := NO_STATS;
    }

    method OnAddOrder(m: Body)
      requires Valid() && m.AddOrder?
      modifies this, manager, manager.owned
      ensures Valid() && State() == Applied(old(State()), m)
      ensures fresh(manager.owned - old(manager.owned))
    {
      hide Apply, OrderBook.Valid, BookManager.ValidBut;
      stats := stats.(adds := stats.adds + 1);
      var bk := manager.Book(m.symbol);
      label Found:
      var ok := bk.Add(m.orderId, m.side, m.price, m.quantity);
      manager.OneChanged@Found(bk);
      manager.Note(bk);
      if !ok { stats := stats.(rejected := stats.rejected + 1); }
    }

    method OnCancelOrder(m: Body)
      requires Valid() && m.CancelOrder?
      modifies this, manager, manager.owned
      ensures Valid() && State() == Applied(old(State()), m)
      ensures fresh(manager.owned - old(manager.owned))
    {
      hide Apply, OrderBook.Valid, BookManager.ValidBut;
      stats := stats.(cancels := stats.cancels + 1);
      var bk := manager.Book(m.symbol);
      label Found:
      var ok := bk.Cancel(m.orderId);
      manager.OneChanged@Found(bk);
      manager.Note(bk);
      if !ok { stats := stats.(rejected := stats.rejected + 1); }
    }

    method OnModifyOrder(m: Body)
      requires Valid() && m.ModifyOrder?
      modifies this, manager, manager.owned
      ensures Valid() && State() == Applied(old(State()), m)
      ensures fresh(manager.owned - old(manager.owned))
    {
      hide Apply, OrderBook.Valid, BookManager.ValidBut;
      stats := stats.(modifications := stats.modifications + 1);
      var bk := manager.Book(m.symbol);
      label Found:
      var ok := bk.Modify(m.orderId, m.newPrice, m.newQuantity);
      manager.OneChanged@Found(bk);
      manager.Note(bk);
      if !ok { stats := stats.(rejected := stats.rejected + 1); }
    }

    method OnTrade(m: Body)
      requires Valid() && m.Trade?
      modifies this, manager, manager.owned
      ensures Valid() && State() == Applied(old(State()), m)
      ensures fresh(manager.owned - old(manager.owned))
    {
      hide Apply, OrderBook.Valid, BookManager.ValidBut;
      stats := stats.(trades := stats.trades + 1);
      var bk := manager.Book(m.symbol);
      label Found:
      var ok := bk.Execute(m.restingOrderId, m.quantity);
      manager.OneChanged@Found(bk);
      manager.Note(bk);
      if !ok { stats := stats.(rejected := stats.rejected + 1); }
    }

    method OnSnapshot(m: Body)
      requires Valid() && m.BookSnapshot?
      modifies this`stats
      ensures Valid() && State() == Applied(old(State()), m)
    {
      hide OrderBook.Valid;
      stats := stats.(snapshots := stats.snapshots + 1);
    }

    method OnHeartbeat()
      requires Valid()
      modifies this`stats
      ensures Valid() && State() == Applied(old(State()), Heartbeat)
    {
      hide OrderBook.Valid;
      stats := stats.(heartbeats := stats.heartbeats + 1);
    }

    method OnMalformed()
      requires Valid()
      modifies this`stats
      ensures Valid() && State() == MalformedSeen(old(State()))
    {
      hide OrderBook.Valid;
      stats := stats.(malformed := stats.malformed + 1);
    }
  }
}
