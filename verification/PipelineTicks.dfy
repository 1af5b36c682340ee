/** What the book thread offers to analytics (include/mdfh/pipeline.hpp:99-124,156-164): which rounds of ticks,
    over which books, and what becomes of them. The history is read off a run from outside: a tick is
    offered when a push of it begins, and refused when the push returns false. */
module PipelineTicks {
  import opened Protocol
  import opened BookBuilding
  import opened Parsing
  import opened FrameTallies
  import opened SpscQueues
  import opened SpscRings
  import opened Pipelines

  /** A tick offered after `count` frames, in the last round or in a periodic one. */
  datatype Offer = Offer(count: nat, last: bool, tick: Tick)

  /** What one step offers. */
  function Offered(p: Pipe, q: Pipe): seq<Offer> {
    if p.ticks.ring.producer.Idle? && q.ticks.ring.producer.Called?
    then [Offer(p.processed, p.frames.stage.Drained?, q.ticks.ring.producer.item)]
    else []
  }

  /** Whether one step refuses a tick. */
  function Refused(p: Pipe, q: Pipe): nat {
    if !p.ticks.ring.producer.Answer? && q.ticks.ring.producer == Answer(false) then 1 else 0
  }

  datatype History = History(offers: seq<Offer>, refused: nat)

  const NOTHING: History := History([], 0)

  function Watched(h: History, p: Pipe, q: Pipe): History {
    History(h.offers + Offered(p, q), h.refused + Refused(p, q))
  }

  /** The history of a run. */
  ghost function HistoryOf(c: Config, buf: seq<byte>, h: History, p: Pipe, steps: seq<Step>, q: Pipe): History
    requires GoodConfig(c) && Leads(c, buf, p, steps, q)
    decreases |steps|
  {
    if steps == [] then h
    else
      var next := Next(c, buf, p, steps[0]);
      HistoryOf(c, buf, Watched(h, p, next), next, steps[1..], q)
  }

  /** The ticks of one round. */
  function Round(offers: seq<Offer>, count: nat, last: bool): seq<Tick> {
    if offers == [] then []
    else
      var (front, o) := (offers[..|offers| - 1], offers[|offers| - 1]);
      Round(front, count, last) + if o.count == count && o.last == last then [o.tick] else []
  }

  // ---- What a round is ----

  /** The books after the first `n` frames ingestion passes on. */
  function BooksAfter(buf: seq<byte>, n: nat): Books
    requires n <= |Short(Frames(buf))|
  {
    TallyOf(Short(Frames(buf))[..n]).feed.down.books
  }

  /** Each symbol of the books once, with the best quotes of its book. */
  ghost predicate CoversBooks(ticks: seq<Tick>, books: Books) {
    && (forall i :: 0 <= i < |ticks| ==> ticks[i].symbol in books && Quotes(ticks[i], books[ticks[i].symbol]))
    && (forall s :: s in books ==> exists i :: 0 <= i < |ticks| && ticks[i].symbol == s)
    && (forall i, j :: 0 <= i < j < |ticks| ==> ticks[i].symbol != ticks[j].symbol)
  }

  lemma RoundCovers(books: Books, order: seq<nat>)
    requires Enumerates(order, books)
    ensures CoversBooks(TicksOf(books, order), books)
  {
    hide TickOf, Quotes;
    var ticks := TicksOf(books, order);
    forall i | 0 <= i < |ticks| ensures ticks[i].symbol == order[i] && order[i] in books && Quotes(ticks[i], books[order[i]]) {
      TickShowsTop(books, order[i]);
      assert order[i] in order;
    }
    forall s | s in books ensures exists i :: 0 <= i < |ticks| && ticks[i].symbol == s {
      var i :| 0 <= i < |order| && order[i] == s;
      assert ticks[i].symbol == s;
    }
  }

  // ---- The invariant ----

  /** The round has begun: after every `analyticsEvery` frames, and once when the loop is over. */
  predicate Begun(every: nat, p: Pipe, count: nat, last: bool)
    requires every > 0
  {
    if last then p.frames.stage.Drained? && count == p.processed
    else 0 < count <= p.processed && count % every == 0
  }

  /** The ticks of the round still to be offered. */
  function StillToOffer(p: Pipe, count: nat, last: bool): seq<Tick> {
    if p.book.Emitting? && p.book.last == last && count == p.processed
    then if p.ticks.ring.producer.Idle? || p.book.ticks == [] then p.book.ticks else p.book.ticks[1..]
    else []
  }

  ghost predicate RoundOk(every: nat, buf: seq<byte>, p: Pipe, offers: seq<Offer>, count: nat, last: bool)
    requires every > 0
  {
    if Begun(every, p, count, last)
    then count <= |Short(Frames(buf))|
         && CoversBooks(Round(offers, count, last) + StillToOffer(p, count, last), BooksAfter(buf, count))
    else Round(offers, count, last) == []
  }

  /** Every round that has begun covers its books with what it has offered and will offer; no other round has
      offered anything; the emission under way is a round that has begun. */
  ghost predicate RoundsOk(every: nat, buf: seq<byte>, p: Pipe, offers: seq<Offer>)
    requires every > 0
  {
    && (p.book.Emitting? ==> Begun(every, p, p.processed, p.book.last))
    && forall count: nat, last: bool :: RoundOk(every, buf, p, offers, count, last)
  }

  function InPush<T>(p: Producer<T>): nat {
    if p.Idle? || p.Answer? then 0 else 1
  }

  ghost predicate OfferedTick(offers: seq<Offer>, t: Tick) {
    exists i :: 0 <= i < |offers| && offers[i].tick == t
  }

  /** Every offer is pushed, refused or under way; the first is never refused. */
  ghost predicate PushesOk(p: Pipe, h: History) {
    var r := p.ticks.ring;
    && |h.offers| == |r.pushed| + h.refused + InPush(r.producer)
    && (forall t :: t in r.pushed ==> OfferedTick(h.offers, t))
    && (InPush(r.producer) == 1 ==> OfferedTick(h.offers, r.producer.item))
    && (h.refused > 0 ==> |r.pushed| > 0)
  }

  /** The rounds come one after the other. */
  ghost predicate InTurn(p: Pipe, offers: seq<Offer>) {
    && (forall i :: 0 <= i < |offers| ==> offers[i].count <= p.processed && (offers[i].last ==> p.frames.stage.Drained?))
    && forall i, j :: 0 <= i < j < |offers| ==>
         offers[i].count <= offers[j].count && (offers[i].last ==> offers[j].last)
  }

  ghost predicate TicksOk(every: nat, buf: seq<byte>, p: Pipe, h: History)
    requires every > 0
  {
    RoundsOk(every, buf, p, h.offers) && PushesOk(p, h) && InTurn(p, h.offers)
  }

  /** The book thread's state after its frames. */
  lemma TallyAt(buf: seq<byte>, p: Pipe)
    requires PipeOk(buf, p)
    ensures p.processed <= |Short(Frames(buf))| && p.tally == TallyOf(Short(Frames(buf))[..p.processed])
  {
    hide RingOk, Frames, Short, FrontOf, TallyOf, FrameOf, Payload, BookOk;
    RingLengths(p.frames.ring);
    var pushed, popped, all := p.frames.ring.pushed, p.frames.ring.popped, Short(Frames(buf));
    assert Payloads(pushed) <= all;
    assert Payloads(popped)[..p.processed] == Payloads(pushed)[..p.processed] == all[..p.processed];
  }

  lemma RoundNext(offers: seq<Offer>, o: Offer, count: nat, last: bool)
    ensures Round(offers + [o], count, last)
         == Round(offers, count, last) + if o.count == count && o.last == last then [o.tick] else []
  {
    assert (offers + [o])[..|offers|] == offers;
  }

  /** Steps that neither begin a round nor offer a tick. */
  lemma RoundsKept(every: nat, buf: seq<byte>, p: Pipe, q: Pipe, offers: seq<Offer>)
    requires every > 0 && RoundsOk(every, buf, p, offers)
    requires q.processed == p.processed && q.frames.stage.Drained? == p.frames.stage.Drained?
    requires q.book.Emitting? ==> p.book.Emitting? && q.book.last == p.book.last
    requires forall last :: StillToOffer(q, p.processed, last) == StillToOffer(p, p.processed, last)
    ensures RoundsOk(every, buf, q, offers)
  {
    hide CoversBooks, BooksAfter, Round, Short, Frames;
    forall count: nat, last: bool ensures RoundOk(every, buf, q, offers, count, last) {
      assert RoundOk(every, buf, p, offers, count, last);
    }
  }

  /** The loop is over, or a frame has been applied: the next round begins if one is due. */
  lemma RoundBegins(every: nat, buf: seq<byte>, p: Pipe, q: Pipe, offers: seq<Offer>)
    requires every > 0 && RoundsOk(every, buf, p, offers) && PipeOk(buf, q)
    requires p.book.Draining? && !p.frames.stage.Drained? && q.ticks.ring.producer.Idle?
    requires if q.frames.stage.Drained? then q.processed == p.processed && q.book.Emitting? && q.book.last
             else q.processed == p.processed + 1
                  && (q.book.Emitting? <==> q.processed % every == 0) && (q.book.Emitting? ==> !q.book.last)
    requires q.book.Emitting? ==> CoversBooks(q.book.ticks, q.tally.feed.down.books)
    ensures RoundsOk(every, buf, q, offers)
  {
    hide CoversBooks, Round, Short, Frames, PipeOk, TallyOf;
    TallyAt(buf, q);
    forall count: nat, last: bool ensures RoundOk(every, buf, q, offers, count, last) {
      assert RoundOk(every, buf, p, offers, count, last);
      assert [] + StillToOffer(q, count, last) == StillToOffer(q, count, last);
      assert Round(offers, count, last) + [] == Round(offers, count, last);
    }
  }

  /** A tick is taken from the round's list and offered. */
  lemma RoundGoesOn(every: nat, buf: seq<byte>, p: Pipe, q: Pipe, offers: seq<Offer>, o: Offer)
    requires every > 0 && RoundsOk(every, buf, p, offers)
    requires p.book.Emitting? && p.book.ticks != [] && p.ticks.ring.producer.Idle? && !q.ticks.ring.producer.Idle?
    requires q == p.(ticks := q.ticks) && o == Offer(p.processed, p.book.last, p.book.ticks[0])
    ensures RoundsOk(every, buf, q, offers + [o])
  {
    hide CoversBooks, BooksAfter, Round, Short, Frames;
    forall count: nat, last: bool ensures RoundOk(every, buf, q, offers + [o], count, last) {
      assert RoundOk(every, buf, p, offers, count, last);
      RoundNext(offers, o, count, last);
      var done, ts := Round(offers, count, last), p.book.ticks;
      assert (done + [ts[0]]) + ts[1..] == done + ts;
      assert done + [] == done;
    }
  }

  // ---- Every step ----

  lemma IngestKeepsTicks(every: nat, buf: seq<byte>, p: Pipe, k: nat, h: History)
    requires every > 0 && TicksOk(every, buf, p, h) && CanIngest(buf, p, k)
    ensures var q := IngestNext(buf, p, k); Watched(h, p, q) == h && TicksOk(every, buf, q, h)
  {
    hide RoundsOk, FrontOf, Produce, CanProduce, FrameOf;
    var q := IngestNext(buf, p, k);
    assert h.offers + [] == h.offers;
    RoundsKept(every, buf, p, q, h.offers);
  }

  lemma AnalyticsKeepsTicks(every: nat, buf: seq<byte>, p: Pipe, k: nat, answer: bool, h: History)
    requires every > 0 && TicksOk(every, buf, p, h) && PipeOk(buf, p) && CanDrain(p.ticks, p.bookDone, k, answer)
    ensures var q := AnalyticsNext(p, k, answer); Watched(h, p, q) == h && TicksOk(every, buf, q, h)
  {
    hide RoundsOk, DrainNext, CanDrain, DrainOk, IngestOk, TallyOk, BookOk;
    DrainNextOk(p.ticks, p.bookDone, k, answer);
    var q := AnalyticsNext(p, k, answer);
    assert h.offers + [] == h.offers;
    RoundsKept(every, buf, p, q, h.offers);
  }

  lemma BookDrainsTicks(c: Config, buf: seq<byte>, p: Pipe, k: nat, answer: bool, order: seq<nat>, h: History)
    requires GoodConfig(c) && TicksOk(c.analyticsEvery, buf, p, h) && PipeOk(buf, p)
    requires CanBook(p, k, answer, order) && p.book.Draining?
    ensures var q := BookNext(c.analyticsEvery, p, k, answer, order);
      Watched(h, p, q) == h && TicksOk(c.analyticsEvery, buf, q, h)
  {
    hide RoundsOk, DrainNext, CanDrain, DrainOk, IngestOk, TallyOk, Tallied, Enumerates, TicksOf, CoversBooks, PowerOfTwo, RoundOk;
    var every := c.analyticsEvery;
    var q := BookNext(every, p, k, answer, order);
    BookStepOk(c, buf, p, k, answer, order);
    DrainStage(p.frames, p.ingestDone, k, answer);
    RoundCovers(AfterItem(p).feed.down.books, order);
    assert h.offers + [] == h.offers;
    if Arrived(p.frames).Some? || q.frames.stage.Drained? {
      hide PipeOk;
      RoundBegins(every, buf, p, q, h.offers);
    } else {
      hide PipeOk;
      RoundsKept(every, buf, p, q, h.offers);
    }
  }

  lemma DrainStage<T>(d: Drain<T>, done: Flag, k: nat, answer: bool)
    requires CanDrain(d, done, k, answer)
    ensures Arrived(d).Some? ==> DrainNext(d, done, k, answer).stage.Popping?
  {
    hide Consume, CanConsume;
  }

  lemma PushBegins(p: Pipe, q: Pipe, h: History, o: Offer)
    requires PushesOk(p, h) && InTurn(p, h.offers) && p.ticks.ring.producer.Idle?
    requires q == p.(ticks := p.ticks.(ring := p.ticks.ring.(producer := Called(o.tick))))
    requires o.count == p.processed && o.last == p.frames.stage.Drained?
    ensures var next := History(h.offers + [o], h.refused); PushesOk(q, next) && InTurn(q, next.offers)
  {
    hide OfferedTick;
    forall t ensures OfferedTick(h.offers, t) || t == o.tick ==> OfferedTick(h.offers + [o], t) { OfferedMore(h.offers, o, t); }
  }

  lemma OfferedMore(offers: seq<Offer>, o: Offer, t: Tick)
    ensures OfferedTick(offers, t) || t == o.tick ==> OfferedTick(offers + [o], t)
  {
    if OfferedTick(offers, t) {
      var i :| 0 <= i < |offers| && offers[i].tick == t;
      assert (offers + [o])[i].tick == t;
    }
    assert (offers + [o])[|offers|] == o;
  }

  lemma BookEmitsTicks(c: Config, buf: seq<byte>, p: Pipe, k: nat, h: History)
    requires GoodConfig(c) && TicksOk(c.analyticsEvery, buf, p, h) && PipeOk(buf, p)
    requires !p.book.Draining? && CanBook(p, k, false, [])
    ensures var q := BookNext(c.analyticsEvery, p, k, false, []); TicksOk(c.analyticsEvery, buf, q, Watched(h, p, q))
  {
    hide RoundsOk, IngestOk, TallyOk, Tallied, CanProduce, Produce, RingOk, PowerOfTwo, RoundOk;
    var every, r := c.analyticsEvery, p.ticks.ring;
    var q := BookNext(every, p, k, false, []);
    assert h.offers + [] == h.offers;
    if p.book.Emitting? && p.book.ticks != [] && r.producer.Idle? {
      var o := Offer(p.processed, p.book.last, p.book.ticks[0]);
      RoundGoesOn(every, buf, p, q, h.offers, o);
      assert Watched(h, p, q) == History(h.offers + [o], h.refused);
      PushBegins(p, q, h, o);
    } else if p.book.Emitting? && p.book.ticks != [] && !r.producer.Answer? {
      hide BookOk, DrainOk;
      PushGoesOn(p, k, h);
      RoundsKept(every, buf, p, q, h.offers);
    } else {
      assert Watched(h, p, q) == h;
      RoundsKept(every, buf, p, q, h.offers);
    }
  }

  lemma PushGoesOn(p: Pipe, k: nat, h: History)
    requires PushesOk(p, h) && InTurn(p, h.offers) && RingOk(p.ticks.ring) && CanProduce(p.ticks.ring, k)
    ensures var q := p.(ticks := p.ticks.(ring := Produce(p.ticks.ring, k)));
      && !q.ticks.ring.producer.Idle?
      && Watched(h, p, q) == History(h.offers, h.refused + Refused(p, q))
      && PushesOk(q, Watched(h, p, q)) && InTurn(q, h.offers)
  {
    hide OfferedTick, RingOk, BitAnd;
    var r := p.ticks.ring;
    var q := p.(ticks := p.ticks.(ring := Produce(r, k)));
    ProduceFrame(r, k);
    assert h.offers + [] == h.offers;
    if r.producer.HaveHead? { RefusedWhenFull(r, k); }
  }

  /** A push is refused only when something is in the ring. */
  lemma RefusedWhenFull<T>(r: Ring<T>, k: nat)
    requires RingOk(r) && r.producer.HaveHead? && CanProduce(r, k)
    ensures Produce(r, k).producer == Answer(false) ==> |r.pushed| > 0
    ensures Produce(r, k).pushed == r.pushed
  {
    hide RingOk, Produce;
    PushFailsIffFull(r, k);
    RingLengths(r);
    ProduceFrame(r, k);
  }

  lemma StepKeepsTicks(c: Config, buf: seq<byte>, p: Pipe, s: Step, h: History)
    requires GoodConfig(c) && TicksOk(c.analyticsEvery, buf, p, h) && PipeOk(buf, p) && Can(buf, p, s)
    ensures var q := Next(c, buf, p, s); TicksOk(c.analyticsEvery, buf, q, Watched(h, p, q))
  {
    hide TicksOk, PipeOk, Watched, IngestNext, AnalyticsNext, CanIngest, CanDrain, Enumerates, AfterItem;
    match s
    case IngestStep(k) => IngestKeepsTicks(c.analyticsEvery, buf, p, k, h);
    case BookStep(k, answer, order) =>
      if p.book.Draining? {
        hide BookNext;
        BookDrainsTicks(c, buf, p, k, answer, order, h);
      } else {
        BookEmitsTicks(c, buf, p, k, h);
      }
    case AnalyticsStep(k, answer) => AnalyticsKeepsTicks(c.analyticsEvery, buf, p, k, answer, h);
  }

  lemma {:induction false} RunKeepsTicks(c: Config, buf: seq<byte>, h: History, p: Pipe, steps: seq<Step>, q: Pipe)
    requires GoodConfig(c) && PipeOk(buf, p) && Leads(c, buf, p, steps, q) && TicksOk(c.analyticsEvery, buf, p, h)
    ensures PipeOk(buf, q) && TicksOk(c.analyticsEvery, buf, q, HistoryOf(c, buf, h, p, steps, q))
    decreases |steps|
  {
    hide TicksOk, PipeOk, Next, Can, Watched, GoodConfig;
    if steps == [] {
    } else {
      var next := Next(c, buf, p, steps[0]);
      StepOk(c, buf, p, steps[0]);
      StepKeepsTicks(c, buf, p, steps[0], h);
      RunKeepsTicks(c, buf, Watched(h, p, next), next, steps[1..], q);
    }
  }

  lemma StartsWithoutTicks(c: Config, buf: seq<byte>)
    requires GoodConfig(c)
    ensures TicksOk(c.analyticsEvery, buf, Started(c), NOTHING)
  {
    hide CoversBooks, BooksAfter, Short, Frames, TallyOf, PowerOfTwo;
    forall count: nat, last: bool ensures RoundOk(c.analyticsEvery, buf, Started(c), [], count, last) { }
  }

  // ---- Main results ----

  /** Which ticks are offered. When all threads have ended, a round has been offered after exactly the frame
      counts that are multiples of `analyticsEvery`, and one more after the last frame; each quotes every
      symbol of the books at that count once, best bid and best ask; nothing else has been offered, and
      the rounds came in turn. */
  lemma EveryRoundOffered(c: Config, buf: seq<byte>, steps: seq<Step>, p: Pipe, count: nat, last: bool)
    requires GoodConfig(c) && Reaches(c, buf, steps, p) && Ended(p)
    ensures var offers := HistoryOf(c, buf, NOTHING, Started(c), steps, p).offers;
      var n := |Short(Frames(buf))|;
      && (if (if last then count == n else 0 < count <= n && count % c.analyticsEvery == 0)
          then CoversBooks(Round(offers, count, last), BooksAfter(buf, count))
          else Round(offers, count, last) == [])
      && forall i, j :: 0 <= i < j < |offers| ==>
           offers[i].count <= offers[j].count && (offers[i].last ==> offers[j].last)
  {
    hide CoversBooks, BooksAfter, Round, Short, Frames, Leads, PipeOk, PushesOk;
    StartedOk(c, buf);
    StartsWithoutTicks(c, buf);
    RunKeepsTicks(c, buf, NOTHING, Started(c), steps, p);
    DrainedIsDone(buf, p);
    var offers := HistoryOf(c, buf, NOTHING, Started(c), steps, p).offers;
    assert RoundOk(c.analyticsEvery, buf, p, offers, count, last);
    assert Round(offers, count, last) + [] == Round(offers, count, last);
  }

  /** What becomes of them. Every tick pushed was offered in such a round, so it quotes the book of its symbol
      after a number of frames at which a round is due; analytics counts all offers but those a full ring refused; and with a book
      at the end it counts at least one. */
  lemma EveryTickAccounted(c: Config, buf: seq<byte>, steps: seq<Step>, p: Pipe)
    requires GoodConfig(c) && Reaches(c, buf, steps, p) && Ended(p)
    ensures var h := HistoryOf(c, buf, NOTHING, Started(c), steps, p);
      && p.events + h.refused == |h.offers|
      && (BooksAfter(buf, |Short(Frames(buf))|) != map[] ==> p.events >= 1)
    ensures forall t :: t in p.ticks.ring.pushed ==> QuotedWhenDue(c.analyticsEvery, buf, t)
  {
    hide CoversBooks, BooksAfter, Round, Short, Frames, Leads, PipeOk, RoundsOk;
    StartedOk(c, buf);
    StartsWithoutTicks(c, buf);
    RunKeepsTicks(c, buf, NOTHING, Started(c), steps, p);
    DrainedIsDone(buf, p);
    var h := HistoryOf(c, buf, NOTHING, Started(c), steps, p);
    var n := |Short(Frames(buf))|;
    IdleAtEnd(buf, p);
    EveryRoundOffered(c, buf, steps, p, n, true);
    if BooksAfter(buf, n) != map[] { SomeTick(h.offers, n, BooksAfter(buf, n)); }
    forall t | t in p.ticks.ring.pushed ensures QuotedWhenDue(c.analyticsEvery, buf, t) {
      var i :| 0 <= i < |h.offers| && h.offers[i].tick == t;
      EveryRoundOffered(c, buf, steps, p, h.offers[i].count, h.offers[i].last);
      InItsRound(h.offers, i);
      Quoted(c.analyticsEvery, buf, Round(h.offers, h.offers[i].count, h.offers[i].last), h.offers[i].count, t);
    }
  }

  /** The tick quotes its symbol's book after a number of frames at which a round is due. */
  ghost predicate QuotedWhenDue(every: nat, buf: seq<byte>, t: Tick)
    requires every > 0
  {
    exists n: nat :: QuotedAt(every, buf, t, n)
  }

  ghost predicate QuotedAt(every: nat, buf: seq<byte>, t: Tick, n: nat)
    requires every > 0
  {
    && n <= |Short(Frames(buf))| && ((n > 0 && n % every == 0) || n == |Short(Frames(buf))|)
    && t.symbol in BooksAfter(buf, n) && Quotes(t, BooksAfter(buf, n)[t.symbol])
  }

  lemma Quoted(every: nat, buf: seq<byte>, ticks: seq<Tick>, n: nat, t: Tick)
    requires every > 0 && n <= |Short(Frames(buf))| && ((n > 0 && n % every == 0) || n == |Short(Frames(buf))|)
    requires CoversBooks(ticks, BooksAfter(buf, n)) && t in ticks
    ensures QuotedWhenDue(every, buf, t)
  {
    hide BooksAfter, Quotes, Short, Frames;
    var i :| 0 <= i < |ticks| && ticks[i] == t;
    assert QuotedAt(every, buf, t, n);
  }

  lemma IdleAtEnd(buf: seq<byte>, p: Pipe)
    requires PipeOk(buf, p) && Ended(p)
    ensures InPush(p.ticks.ring.producer) == 0
  {
    hide DrainOk, IngestOk, TallyOk;
  }

  lemma {:induction false} InItsRound(offers: seq<Offer>, i: nat)
    requires i < |offers|
    ensures offers[i].tick in Round(offers, offers[i].count, offers[i].last)
  {
    var n := |offers| - 1;
    if i == n {
    } else {
      InItsRound(offers[..n], i);
    }
  }

  lemma SomeTick(offers: seq<Offer>, n: nat, books: Books)
    requires CoversBooks(Round(offers, n, true), books) && books != map[]
    ensures offers != []
  {
    hide Quotes;
    var s :| s in books;
  }
}
