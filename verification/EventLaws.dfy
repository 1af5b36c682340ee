/** What a run of messages does to the builder (src/book_builder.cpp:23-70), said with the messages: each
    counter counts the messages of one type, `rejected` the mutations that were refused, and each event
    changes one order of one book. */
module EventLaws {
  import opened Protocol
  import opened FlatBook
  import opened BookBuilding
  import opened FeedLaws

  ghost predicate Resting(f: seq<Order>, id: nat) {
    exists o :: o in f && o.id == id
  }

  /** The mutations a book refuses: an add of nothing or of an id that rests, and anything else for an id
      that does not rest. Snapshots and heartbeats are never refused. */
  ghost predicate Refuses(f: seq<Order>, b: Body) {
    match b
    case AddOrder(_, id, _, _, qty) => qty == 0 || Resting(f, id)
    case CancelOrder(_, id) => !Resting(f, id)
    case ModifyOrder(_, id, _, _) => !Resting(f, id)
    case Trade(_, id, _, _, _) => !Resting(f, id)
    case _ => false
  }

  /** The orders after a mutation that is not refused. */
  ghost predicate Effects(f: seq<Order>, g: seq<Order>, b: Body) {
    match b
    case AddOrder(_, id, side, price, qty) =>
      forall o :: o in g <==> o in f || o == Order(id, side, price, qty)
    case CancelOrder(_, id) =>
      forall o :: o in g <==> o in f && o.id != id
    case ModifyOrder(_, id, price, qty) =>
      forall o :: o in g <==> (o in f && o.id != id) || (qty > 0 && Amended(f, o, id, price, qty))
    case Trade(_, id, _, qty, _) =>
      forall o :: o in g <==> (o in f && o.id != id) || Filled(f, o, id, qty)
    case _ => g == f
  }

  /** The order with this id, at its side but with another price and quantity. */
  ghost predicate Amended(f: seq<Order>, o: Order, id: nat, price: int, qty: nat) {
    o.id == id && o.price == price && o.quantity == qty && exists x :: x in f && x.id == id && x.side == o.side
  }

  /** The order with this id, less the quantity filled. */
  ghost predicate Filled(f: seq<Order>, o: Order, id: nat, qty: nat) {
    o.id == id && o.quantity > 0 && o.(quantity := o.quantity + qty) in f
  }

  lemma RestingIsHad(f: seq<Order>, id: nat)
    ensures Resting(f, id) <==> Has(f, id)
  {
    if Has(f, id) { assert f[IndexOf(f, id)] in f; }
  }

  /** Of the orders with this id there is the one found. */
  lemma TheOne(f: seq<Order>, i: nat, x: Order)
    requires i < |f| && UniqueIds(f) && x in f && x.id == f[i].id
    ensures x == f[i]
  {
  }

  lemma ModifyEffect(f: seq<Order>, symbol: nat, id: nat, price: int, qty: nat)
    requires ValidFlat(f) && Has(f, id)
    ensures Effects(f, Apply(f, Op.Modify(id, price, qty)).0, ModifyOrder(symbol, id, price, qty))
  {
    hide ValidFlat, RemoveAt, IndexOf;
    ValidIsUnique(f);
    var i, g := IndexOf(f, id), Apply(f, Op.Modify(id, price, qty)).0;
    RestOf(f, i);
    var o := Order(id, f[i].side, price, qty);
    forall x ensures Amended(f, x, id, price, qty) <==> x == o {
      if Amended(f, x, id, price, qty) {
        var y :| y in f && y.id == id && y.side == x.side;
        TheOne(f, i, y);
      }
    }
    hide Amended, UniqueIds;
    if qty == 0 {
    } else {
      InPlace(f, i, f[i].(quantity := qty));
      AtBack(RemoveAt(f, i), o);
      RemovedSize(f, i);
      OneOf(g, if price == f[i].price && qty <= f[i].quantity then i else |f| - 1);
    }
  }

  lemma FillEffect(f: seq<Order>, symbol: nat, id: nat, price: int, qty: nat, side: nat)
    requires ValidFlat(f) && Has(f, id)
    ensures Effects(f, Apply(f, Op.Execute(id, qty)).0, Trade(symbol, id, price, qty, side))
  {
    hide RemoveAt, IndexOf;
    ValidIsUnique(f);
    var i, g := IndexOf(f, id), Apply(f, Op.Execute(id, qty)).0;
    RestOf(f, i);
    forall x ensures Filled(f, x, id, qty) <==> qty < f[i].quantity && x == f[i].(quantity := f[i].quantity - qty) {
      if Filled(f, x, id, qty) { TheOne(f, i, x.(quantity := x.quantity + qty)); }
    }
    hide Filled, UniqueIds, ValidFlat;
    if qty < f[i].quantity {
      InPlace(f, i, f[i].(quantity := f[i].quantity - qty));
      OneOf(g, i);
    }
  }

  /** One event: the books of other symbols stay, a refused mutation leaves its book as it was, and any
      other changes exactly the order it names. */
  lemma EventEffect(s: BuilderState, b: Body)
    requires IsOrderEvent(b) ==> ValidFlat(BookOf(s.books, b.symbol))
    ensures var t := Applied(s, b);
      && (!IsOrderEvent(b) ==> t.books == s.books)
      && (IsOrderEvent(b) ==>
            var (f, g) := (BookOf(s.books, b.symbol), BookOf(t.books, b.symbol));
            && t.books.Keys == s.books.Keys + {b.symbol}
            && (forall other :: other in s.books && other != b.symbol ==> t.books[other] == s.books[other])
            && (if Refuses(f, b) then g == f else Effects(f, g, b)))
  {
    hide ValidFlat, RemoveAt, IndexOf, Amended, Filled, Resting;
    if IsOrderEvent(b) {
      var f := BookOf(s.books, b.symbol);
      ValidIsUnique(f);
      match b
      case AddOrder(_, id, _, _, _) => RestingIsHad(f, id);
      case CancelOrder(_, id) =>
        RestingIsHad(f, id);
        if Has(f, id) { RestOf(f, IndexOf(f, id)); }
      case ModifyOrder(symbol, id, price, qty) =>
        RestingIsHad(f, id);
        if Has(f, id) { ModifyEffect(f, symbol, id, price, qty); }
      case Trade(symbol, id, price, qty, side) =>
        RestingIsHad(f, id);
        if Has(f, id) { FillEffect(f, symbol, id, price, qty, side); }
    }
  }

  /** Every book that events build is one to which `EventEffect` applies. */
  lemma {:induction false} BuiltIsValid(ms: seq<Message>, symbol: nat)
    ensures ValidFlat(BookOf(AppliedAll(ms).books, symbol))
  {
    hide Apply, ValidFlat;
    if ms == [] {
      NothingIsValid();
    } else {
      var front, b := ms[..|ms| - 1], ms[|ms| - 1].body;
      BuiltIsValid(front, symbol);
      if IsOrderEvent(b) { ApplyKeepsValid(BookOf(AppliedAll(front).books, symbol), OpOf(b)); }
    }
  }

  lemma NothingIsValid()
    ensures ValidFlat([])
  {
  }

  // ---- Counters over runs ----

  /** The wire's number for the type of a message. */
  function KindOf(b: Body): nat {
    match b
    case Heartbeat => 0
    case AddOrder(_, _, _, _, _) => 1
    case CancelOrder(_, _) => 2
    case ModifyOrder(_, _, _, _) => 3
    case Trade(_, _, _, _, _) => 4
    case BookSnapshot(_, _, _, _, _) => 5
  }

  function OfKind(ms: seq<Message>, kind: nat): nat {
    if ms == [] then 0
    else OfKind(ms[..|ms| - 1], kind) + if KindOf(ms[|ms| - 1].body) == kind then 1 else 0
  }

  ghost predicate RefusedNext(ms: seq<Message>, b: Body) {
    IsOrderEvent(b) && Refuses(BookOf(AppliedAll(ms).books, b.symbol), b)
  }

  /** The messages refused by the books their predecessors built. */
  ghost function Refusals(ms: seq<Message>): nat {
    if ms == [] then 0
    else Refusals(ms[..|ms| - 1]) + if RefusedNext(ms[..|ms| - 1], ms[|ms| - 1].body) then 1 else 0
  }

  lemma AppliedStats(s: BuilderState, b: Body)
    ensures var (t, k) := (Applied(s, b).stats, KindOf(b));
      t == BookStats(s.stats.adds + (if k == 1 then 1 else 0), s.stats.cancels + (if k == 2 then 1 else 0),
                     s.stats.modifications + (if k == 3 then 1 else 0), s.stats.trades + (if k == 4 then 1 else 0),
                     s.stats.snapshots + (if k == 5 then 1 else 0), s.stats.heartbeats + (if k == 0 then 1 else 0),
                     s.stats.malformed,
                     s.stats.rejected + if IsOrderEvent(b) && Refuses(BookOf(s.books, b.symbol), b) then 1 else 0)
  {
    hide RemoveAt, IndexOf, Resting;
    if IsOrderEvent(b) { RestingIsHad(BookOf(s.books, b.symbol), OpOf(b).id); }
  }

  /** Every counter after a run of messages. */
  lemma {:induction false} CountersCount(ms: seq<Message>)
    ensures AppliedAll(ms).stats == BookStats(OfKind(ms, 1), OfKind(ms, 2), OfKind(ms, 3), OfKind(ms, 4),
                                              OfKind(ms, 5), OfKind(ms, 0), 0, Refusals(ms))
  {
    hide Applied, Refuses, KindOf;
    if ms == [] {
    } else {
      CountersCount(ms[..|ms| - 1]);
      AppliedStats(AppliedAll(ms[..|ms| - 1]), ms[|ms| - 1].body);
    }
  }
}
