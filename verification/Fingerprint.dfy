/** The fingerprint of all books (src/replay.cpp:60-87), by which the pipeline is compared with the
    single-threaded path. */
module Fingerprints {
  import opened Protocol
  import opened FlatBook
  import opened OrderBooks
  import opened BookBuilding
  import opened FeedHandling
  import opened Shown
  import opened Pipelines

  const FNV_OFFSET: nat := 1469598103934665603
  const FNV_PRIME: nat := 1099511628211

  function BitXor(a: nat, b: nat): nat {
    if a == 0 then b
    else if b == 0 then a
    else (if a % 2 != b % 2 then 1 else 0) + 2 * BitXor(a / 2, b / 2)
  }

  predicate Bit(n: nat, k: nat) {
    if k == 0 then n % 2 == 1 else Bit(n / 2, k - 1)
  }

  /** Exclusive or, bit by bit. */
  lemma {:induction false} XorBits(a: nat, b: nat, k: nat)
    ensures Bit(BitXor(a, b), k) <==> Bit(a, k) != Bit(b, k)
    decreases k
  {
    if a == 0 {
      NoBits(k);
    } else if b == 0 {
      NoBits(k);
    } else if k > 0 {
      XorBits(a / 2, b / 2, k - 1);
      var d, rest := if a % 2 != b % 2 then 1 else 0, BitXor(a / 2, b / 2);
      assert (d + 2 * rest) / 2 == rest;
    }
  }

  lemma {:induction false} NoBits(k: nat)
    ensures !Bit(0, k)
  {
    if k > 0 { NoBits(k - 1); }
  }

  /** One round of the 64-bit hash. */
  function Mix(h: nat, v: nat): nat {
    BitXor(h, v) * FNV_PRIME % TWO64
  }

  /** A signed price as an unsigned word. */
  function Word(p: int): nat {
    p % TWO64
  }

  function MixView(h: nat, v: Option<LevelView>): nat {
    if v.None? then h else Mix(Mix(Mix(h, Word(v.value.price)), v.value.quantity), v.value.orderCount)
  }

  function BookHash(symbol: nat, f: seq<Order>): nat {
    var h := Mix(Mix(Mix(Mix(FNV_OFFSET, symbol), |Prices(f, true)|), |Prices(f, false)|), |f|);
    MixView(MixView(h, Best(f, true)), Best(f, false))
  }

  /** FNV over a list of words. */
  function Fnv(words: seq<nat>): nat {
    if words == [] then 1469598103934665603
    else BitXor(Fnv(words[..|words| - 1]), words[|words| - 1]) * 1099511628211 % 18446744073709551616
  }

  function ViewWords(v: Option<LevelView>): seq<nat> {
    if v.None? then [] else [v.value.price % 18446744073709551616, v.value.quantity, v.value.orderCount]
  }

  lemma FnvOneMore(words: seq<nat>, w: nat)
    ensures Fnv(words + [w]) == Mix(Fnv(words), w)
  {
    hide BitXor;
    assert (words + [w])[..|words|] == words;
  }

  lemma FnvView(words: seq<nat>, v: Option<LevelView>)
    ensures Fnv(words + ViewWords(v)) == MixView(Fnv(words), v)
  {
    hide Fnv, Mix;
    if v.None? {
      assert words + [] == words;
    } else {
      var (p, q, n) := (Word(v.value.price), v.value.quantity, v.value.orderCount);
      assert words + ViewWords(v) == words + [p] + [q] + [n];
      FnvOneMore(words, p);
      FnvOneMore(words + [p], q);
      FnvOneMore(words + [p] + [q], n);
    }
  }

  /** The hash of a book is FNV over its symbol, the numbers of its bid prices, ask prices and orders, and the
      price, quantity and count of its best bid and of its best ask where there is one. */
  lemma HashIsFnv(symbol: nat, f: seq<Order>)
    ensures BookHash(symbol, f) == Fnv([symbol, |OrderPrices(f, true)|, |OrderPrices(f, false)|, |f|]
                                       + ViewWords(Best(f, true)) + ViewWords(Best(f, false)))
    ensures ShowsBest(Best(f, true), f, true) && ShowsBest(Best(f, false), f, false)
  {
    hide Fnv, Mix, ViewWords, MixView, Prices, OrderPrices, Best, ShowsBest;
    PricesInOrders(f, true);
    PricesInOrders(f, false);
    BestShows(f, true);
    BestShows(f, false);
    var bids, asks := |Prices(f, true)|, |Prices(f, false)|;
    NoWords();
    FnvOneMore([], symbol);
    FnvOneMore([symbol], bids);
    FnvOneMore([symbol, bids], asks);
    FnvOneMore([symbol, bids, asks], |f|);
    assert [] + [symbol] == [symbol] && [symbol] + [bids] == [symbol, bids] && [symbol, bids] + [asks] == [symbol, bids, asks];
    assert [symbol, bids, asks] + [|f|] == [symbol, bids, asks, |f|];
    FnvView([symbol, bids, asks, |f|], Best(f, true));
    FnvView([symbol, bids, asks, |f|] + ViewWords(Best(f, true)), Best(f, false));
  }

  lemma NoWords()
    ensures Fnv([]) == FNV_OFFSET
  {
  }

  /** The hashes added up, in 64 bits, in the order the books are visited. */
  function FingerprintOf(books: Books, order: seq<nat>): nat {
    if order == [] then 0
    else
      var (front, s) := (order[..|order| - 1], order[|order| - 1]);
      (FingerprintOf(books, front) + BookHash(s, BookOf(books, s))) % TWO64
  }

  // ---- The visiting order does not matter ----

  function Sum(books: Books, order: seq<nat>): nat {
    if order == [] then 0
    else
      var (front, s) := (order[..|order| - 1], order[|order| - 1]);
      Sum(books, front) + BookHash(s, BookOf(books, s))
  }

  lemma {:induction false} FingerprintIsSum(books: Books, order: seq<nat>)
    ensures FingerprintOf(books, order) == Sum(books, order) % TWO64
  {
    hide BookHash;
    if order == [] {
    } else {
      var (front, s) := (order[..|order| - 1], order[|order| - 1]);
      FingerprintIsSum(books, front);
      AddWraps(Sum(books, front), BookHash(s, BookOf(books, s)));
    }
  }

  function Without(order: seq<nat>, i: nat): (w: seq<nat>)
    requires i < |order|
    ensures |w| == |order| - 1
  {
    order[..i] + order[i + 1..]
  }

  lemma {:induction false} SumWithout(books: Books, order: seq<nat>, i: nat)
    requires i < |order|
    ensures Sum(books, order) == Sum(books, Without(order, i)) + BookHash(order[i], BookOf(books, order[i]))
  {
    hide BookHash;
    var n := |order| - 1;
    var w := Without(order, i);
    if i < n {
      SumWithout(books, order[..n], i);
      assert w[..n - 1] == Without(order[..n], i) && w[n - 1] == order[n];
    } else {
      assert w == order[..n];
    }
  }

  lemma HeadIsIn(a: seq<nat>)
    ensures a == [] || a[0] in a
  {
  }

  lemma WithoutMembers(a: seq<nat>, i: nat)
    requires Distinct(a) && i < |a|
    ensures Distinct(Without(a, i)) && a[i] in a
    ensures forall t :: t in Without(a, i) <==> t in a && t != a[i]
  {
    var w := Without(a, i);
    forall t | t in w ensures t in a && t != a[i] {
      var k :| 0 <= k < |w| && w[k] == t;
      assert t == a[if k < i then k else k + 1];
    }
    forall t | t in a && t != a[i] ensures t in w {
      var k :| 0 <= k < |a| && a[k] == t;
      assert t == w[if k < i then k else k - 1];
    }
  }

  lemma {:induction false} SameSum(books: Books, a: seq<nat>, b: seq<nat>)
    requires Distinct(a) && Distinct(b) && forall s :: s in a <==> s in b
    ensures Sum(books, a) == Sum(books, b)
    decreases |b|
  {
    hide BookHash, Distinct, Without, Sum;
    if b == [] {
      HeadIsIn(a);
    } else {
      var n := |b| - 1;
      WithoutMembers(b, n);
      var i :| 0 <= i < |a| && a[i] == b[n];
      WithoutMembers(a, i);
      SameSum(books, Without(a, i), Without(b, n));
      SumWithout(books, a, i);
      SumWithout(books, b, n);
    }
  }

  /** The fingerprint does not depend on the order in which the unordered map is visited. */
  lemma VisitingOrderIrrelevant(books: Books, a: seq<nat>, b: seq<nat>)
    requires Enumerates(a, books) && Enumerates(b, books)
    ensures FingerprintOf(books, a) == FingerprintOf(books, b)
  {
    SameSum(books, a, b);
    FingerprintIsSum(books, a);
    FingerprintIsSum(books, b);
  }

  /** So every interleaving of the pipeline ends with the fingerprint of the single-threaded path. */
  lemma PipelineFingerprint(c: Config, buf: seq<byte>, steps: seq<Step>, p: Pipe, a: seq<nat>, b: seq<nat>)
    requires GoodConfig(c) && Reaches(c, buf, steps, p) && Ended(p)
    requires Enumerates(a, p.tally.feed.down.books) && Enumerates(b, Consumed(FRESH_FEED, buf).0.down.books)
    ensures FingerprintOf(p.tally.feed.down.books, a) == FingerprintOf(Consumed(FRESH_FEED, buf).0.down.books, b)
  {
    hide FingerprintOf, Enumerates, Consumed, Reaches;
    EveryInterleavingIsConsume(c, buf, steps, p);
    VisitingOrderIrrelevant(p.tally.feed.down.books, a, b);
  }

  /** The method, visiting the books in any order. */
  method BookFingerprint(mgr: BookManager, order: seq<nat>) returns (acc: nat)
    requires mgr.Valid() && Enumerates(order, mgr.flats)
    ensures acc == FingerprintOf(mgr.flats, order)
  {
    hide BookHash, BookManager.Valid, OrderBook.Valid;
    acc := 0;
    var i := 0;
    while i < |order|
      invariant 0 <= i <= |order| && acc == FingerprintOf(mgr.flats, order[..i])
    {
      assert order[..i + 1][..i] == order[..i];
      assert order[i] in mgr.flats;
      BookAt(mgr, order[i]);
      var h := HashBook(mgr.books[order[i]]);
      acc := (acc + h) % TWO64;
      i := i + 1;
    }
    assert order[..i] == order;
  }

  method HashBook(bk: OrderBook) returns (h: nat)
    requires bk.Valid()
    ensures h == BookHash(bk.symbol, bk.flat)
  {
    hide OrderBook.Valid, Mix;
    bk.Keys(true);
    bk.Keys(false);
    Sizes(bk);
    h := Mix(FNV_OFFSET, bk.symbol);
    h := Mix(h, |bk.bids|);
    h := Mix(h, |bk.asks|);
    h := Mix(h, |bk.orders|);
    var bb := bk.BestLevel(true);
    if bb.Some? {
      h := Mix(h, Word(bb.value.price));
      h := Mix(h, bb.value.quantity);
      h := Mix(h, bb.value.orderCount);
    }
    var ba := bk.BestLevel(false);
    if ba.Some? {
      h := Mix(h, Word(ba.value.price));
      h := Mix(h, ba.value.quantity);
      h := Mix(h, ba.value.orderCount);
    }
  }

  lemma BookAt(mgr: BookManager, symbol: nat)
    requires mgr.Valid() && symbol in mgr.flats
    ensures symbol in mgr.books && mgr.books[symbol].Valid()
    ensures mgr.books[symbol].symbol == symbol && mgr.books[symbol].flat == BookOf(mgr.flats, symbol)
  {
    hide OrderBook.Valid;
  }

  lemma Sizes(bk: OrderBook)
    requires bk.Valid()
    ensures |bk.bids| == |Prices(bk.flat, true)| && |bk.asks| == |Prices(bk.flat, false)| && |bk.orders| == |bk.flat|
  {
    hide OrderBook.Valid, CountIn, Prices;
    bk.Keys(true);
    bk.Keys(false);
    bk.OrderCount();
    BothSides(bk.flat);
    assert |bk.bids| == |bk.bids.Keys| && |bk.asks| == |bk.asks.Keys|;
  }

  lemma BothSides(f: seq<Order>)
    ensures CountIn(f, true, Prices(f, true)) + CountIn(f, false, Prices(f, false)) == |f|
  {
    hide CountIn;
    CountAll(f, Prices(f, true), Prices(f, false));
  }
}
