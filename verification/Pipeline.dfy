/** The concurrent pipeline (include/mdfh/pipeline.hpp:67-164) as a step system: ingestion, book update
    and analytics threads over two rings, with backpressure, lossy ticks and two done flags.

    A done flag is an atomic too: while it is raised, a load may still miss it, until the loading
    thread has read it once. Reading it raised also makes everything the other thread had published
    before raising it visible, so the reader can no longer load an older ring index. */
module Pipelines {
  import opened Protocol
  import opened FlatBook
  import opened BookBuilding
  import opened Parsing
  import opened FeedHandling
  import opened FrameTallies
  import opened SpscQueues
  import opened SpscRings

  // ---- Frames and ticks ----

  datatype FrameBlock = FrameBlock(len: nat, data: seq<byte>)

  function Zeros(n: nat): (z: seq<byte>)
    ensures |z| == n
  {
    if n == 0 then [] else Zeros(n - 1) + [0]
  }

  const BLANK: FrameBlock := FrameBlock(0, Zeros(MAX_MESSAGE_SIZE))

  /** A length and a fixed block of bytes. */
  type Frame = f: FrameBlock | f.len <= MAX_MESSAGE_SIZE && |f.data| == MAX_MESSAGE_SIZE witness BLANK

  function FrameOf(bytes: seq<byte>): Frame
    requires |bytes| <= MAX_MESSAGE_SIZE
  {
    FrameBlock(|bytes|, bytes + Zeros(MAX_MESSAGE_SIZE - |bytes|))
  }

  /** The bytes the book thread hands to the feed handler. */
  function Payload(f: Frame): seq<byte> {
    f.data[..f.len]
  }

  lemma PayloadOfFrame(bytes: seq<byte>)
    requires |bytes| <= MAX_MESSAGE_SIZE
    ensures Payload(FrameOf(bytes)) == bytes
  {
  }

  function Payloads(fs: seq<Frame>): (r: seq<seq<byte>>)
    ensures |r| == |fs| && forall i :: 0 <= i < |fs| ==> r[i] == Payload(fs[i])
  {
    seq(|fs|, i requires 0 <= i < |fs| => Payload(fs[i]))
  }

  datatype Tick = Tick(symbol: nat, bid: int, ask: int)

  const NO_TICK: Tick := Tick(0, 0, 0)

  function PriceOr0(v: Option<LevelView>): int {
    if v.Some? then v.value.price else 0
  }

  function TickOf(books: Books, symbol: nat): Tick {
    Tick(symbol, PriceOr0(Best(BookOf(books, symbol), true)), PriceOr0(Best(BookOf(books, symbol), false)))
  }

  /** One tick per book, in the order the books are visited. */
  function TicksOf(books: Books, order: seq<nat>): seq<Tick> {
    seq(|order|, i requires 0 <= i < |order| => TickOf(books, order[i]))
  }

  /** `q` is the best price among the orders of one side, highest for bids and lowest for asks, or 0 when the
      side has none. */
  ghost predicate QuoteIs(q: int, f: seq<Order>, buy: bool) {
    && ((forall o :: o in f ==> (o.side == 0) != buy) ==> q == 0)
    && ((exists o :: o in f && (o.side == 0) == buy) ==>
          && (exists o :: o in f && (o.side == 0) == buy && o.price == q)
          && forall o :: o in f && (o.side == 0) == buy ==> if buy then o.price <= q else q <= o.price)
  }

  /** A tick quotes the best bid and the best ask of a book. */
  ghost predicate Quotes(t: Tick, f: seq<Order>) {
    QuoteIs(t.bid, f, true) && QuoteIs(t.ask, f, false)
  }

  lemma TickShowsTop(books: Books, symbol: nat)
    ensures var t := TickOf(books, symbol); t.symbol == symbol && Quotes(t, BookOf(books, symbol))
  {
    hide Queue, Total, Prices;
    BestQuote(BookOf(books, symbol), true);
    BestQuote(BookOf(books, symbol), false);
  }

  // ---- The loop shared by the book and analytics threads ----

  /** A done flag; raising it publishes the head values stored so far. */
  datatype Flag = Unset | Raised(view: nat)

  datatype Stage = Popping | TestingDone | TestingEmpty | Drained

  /** A consumer of `ring`: it pops until a pop fails, the flag is raised and the ring is empty.
      `saw` records that it has read the flag raised. */
  datatype Drain<T> = Drain(stage: Stage, saw: bool, ring: Ring<T>)

  predicate CanDrain<T>(d: Drain<T>, done: Flag, k: nat, answer: bool) {
    match d.stage
    case Popping => d.ring.consumer.Resting? || d.ring.consumer.Reply? || CanConsume(d.ring, k)
    case TestingDone => if answer then done.Raised? else !d.saw
    case TestingEmpty => Loadable(d.ring.heads, d.ring.headSeen, k) && |d.ring.tails| > 0
    case Drained => false
  }

  /** One step of the loop. `answer` is what a load of the flag returns. */
  function DrainNext<T>(d: Drain<T>, done: Flag, k: nat, answer: bool): Drain<T>
    requires CanDrain(d, done, k, answer)
  {
    match d.stage
    case Popping =>
      if d.ring.consumer.Resting? then d.(ring := d.ring.(consumer := Asked))
      else if d.ring.consumer.Reply? then
        d.(stage := if d.ring.consumer.got.None? then TestingDone else Popping, ring := d.ring.(consumer := Resting))
      else d.(ring := Consume(d.ring, k))
    case TestingDone =>
      if answer then
        Drain(TestingEmpty, true, d.ring.(headSeen := if d.ring.headSeen < done.view then done.view else d.ring.headSeen))
      else d.(stage := Popping)
    case TestingEmpty =>
      var (ring, empty) := SeeEmpty(d.ring, k);
      d.(stage := if empty then Drained else Popping, ring := ring)
  }

  /** The item a step of the loop hands to its body. */
  function Arrived<T>(d: Drain<T>): Option<T> {
    if d.stage.Popping? && d.ring.consumer.Reply? then d.ring.consumer.got else None
  }

  // ---- The three threads ----

  datatype Ingest = Scanning | Pushing(frame: Frame, size: nat) | IngestFinishing | IngestEnded

  datatype Book = Draining | Emitting(ticks: seq<Tick>, last: bool) | BookFinishing | BookEnded

  datatype Config = Config(frameSlots: nat, tickSlots: nat, analyticsEvery: nat)

  datatype Pipe = Pipe(ingest: Ingest, off: nat, ingestDone: Flag,
                       frames: Drain<Frame>, book: Book, tally: Tally, processed: nat, bookDone: Flag,
                       ticks: Drain<Tick>, events: nat)

  ghost predicate GoodConfig(c: Config) {
    PowerOfTwo(c.frameSlots) && c.frameSlots >= 2 && PowerOfTwo(c.tickSlots) && c.tickSlots >= 2 && c.analyticsEvery > 0
  }

  function Started(c: Config): Pipe {
    Pipe(Scanning, 0, Unset, Drain(Popping, false, NewRing<Frame>(c.frameSlots, BLANK)), Draining,
         TallyOf([]), 0, Unset, Drain(Popping, false, NewRing(c.tickSlots, NO_TICK)), 0)
  }

  predicate CanIngest(buf: seq<byte>, p: Pipe, k: nat) {
    match p.ingest
    case Scanning => p.off <= |buf|
    case Pushing(_, _) => p.frames.ring.producer.Answer? || CanProduce(p.frames.ring, k)
    case IngestFinishing => |p.frames.ring.heads| > 0
    case IngestEnded => false
  }

  function IngestNext(buf: seq<byte>, p: Pipe, k: nat): Pipe
    requires CanIngest(buf, p, k)
  {
    var ring := p.frames.ring;
    match p.ingest
    case Scanning =>
      var rest := buf[p.off..];
      if !HasFrame(rest) then p.(ingest := IngestFinishing)
      else if FrontOf(rest).size > MAX_MESSAGE_SIZE then p.(off := p.off + FrontOf(rest).size)
      else
        var f := FrameOf(rest[..FrontOf(rest).size]);
        p.(ingest := Pushing(f, FrontOf(rest).size), frames := p.frames.(ring := ring.(producer := Called(f))))
    case Pushing(f, size) =>
      if !ring.producer.Answer? then p.(frames := p.frames.(ring := Produce(ring, k)))
      else if !ring.producer.ok then p.(frames := p.frames.(ring := ring.(producer := Called(f))))
      else p.(ingest := Scanning, off := p.off + size, frames := p.frames.(ring := ring.(producer := Idle)))
    case IngestFinishing => p.(ingest := IngestEnded, ingestDone := Raised(|ring.heads| - 1))
  }

  /** The books and counters after a step of the book thread. */
  function AfterItem(p: Pipe): Tally {
    if p.book.Draining? && Arrived(p.frames).Some? then Tallied(p.tally, Payload(Arrived(p.frames).value)) else p.tally
  }

  ghost predicate CanBook(p: Pipe, k: nat, answer: bool, order: seq<nat>) {
    match p.book
    case Draining => CanDrain(p.frames, p.ingestDone, k, answer) && Enumerates(order, AfterItem(p).feed.down.books)
    case Emitting(ts, _) =>
      ts == [] || p.ticks.ring.producer.Idle? || p.ticks.ring.producer.Answer? || CanProduce(p.ticks.ring, k)
    case BookFinishing => |p.ticks.ring.heads| > 0
    case BookEnded => false
  }

  function BookNext(every: nat, p: Pipe, k: nat, answer: bool, order: seq<nat>): Pipe
    requires every > 0 && CanBook(p, k, answer, order)
  {
    var ring := p.ticks.ring;
    match p.book
    case Draining =>
      var d := DrainNext(p.frames, p.ingestDone, k, answer);
      var t := AfterItem(p);
      var ticks := TicksOf(t.feed.down.books, order);
      if Arrived(p.frames).Some? then
        p.(frames := d, tally := t, processed := p.processed + 1,
           book := if (p.processed + 1) % every == 0 then Emitting(ticks, false) else Draining)
      else p.(frames := d, book := if d.stage.Drained? then Emitting(ticks, true) else Draining)
    case Emitting(ts, last) =>
      if ts == [] then p.(book := if last then BookFinishing else Draining)
      else if ring.producer.Idle? then p.(ticks := p.ticks.(ring := ring.(producer := Called(ts[0]))))
      else if ring.producer.Answer? then
        p.(book := Emitting(ts[1..], last), ticks := p.ticks.(ring := ring.(producer := Idle)))
      else p.(ticks := p.ticks.(ring := Produce(ring, k)))
    case BookFinishing => p.(book := BookEnded, bookDone := Raised(|ring.heads| - 1))
  }

  function AnalyticsNext(p: Pipe, k: nat, answer: bool): Pipe
    requires CanDrain(p.ticks, p.bookDone, k, answer)
  {
    p.(ticks := DrainNext(p.ticks, p.bookDone, k, answer),
       events := p.events + if Arrived(p.ticks).Some? then 1 else 0)
  }

  /** Who moves, and what the choices left open come out as. */
  datatype Step =
    | IngestStep(k: nat)
    | BookStep(k: nat, answer: bool, order: seq<nat>)
    | AnalyticsStep(k: nat, answer: bool)

  ghost predicate Can(buf: seq<byte>, p: Pipe, s: Step) {
    match s
    case IngestStep(k) => CanIngest(buf, p, k)
    case BookStep(k, answer, order) => CanBook(p, k, answer, order)
    case AnalyticsStep(k, answer) => CanDrain(p.ticks, p.bookDone, k, answer)
  }

  ghost function Next(c: Config, buf: seq<byte>, p: Pipe, s: Step): Pipe
    requires GoodConfig(c) && Can(buf, p, s)
  {
    match s
    case IngestStep(k) => IngestNext(buf, p, k)
    case BookStep(k, answer, order) => BookNext(c.analyticsEvery, p, k, answer, order)
    case AnalyticsStep(k, answer) => AnalyticsNext(p, k, answer)
  }

  /** From `p`, an interleaving that takes exactly these steps ends in `q`. */
  ghost predicate Leads(c: Config, buf: seq<byte>, p: Pipe, steps: seq<Step>, q: Pipe)
    requires GoodConfig(c)
    decreases |steps|
  {
    if steps == [] then p == q else Can(buf, p, steps[0]) && Leads(c, buf, Next(c, buf, p, steps[0]), steps[1..], q)
  }

  /** So does one from the start. */
  ghost predicate Reaches(c: Config, buf: seq<byte>, steps: seq<Step>, p: Pipe)
    requires GoodConfig(c)
  {
    Leads(c, buf, Started(c), steps, p)
  }

  /** All three threads have ended. */
  predicate Ended(p: Pipe) {
    p.ingest.IngestEnded? && p.book.BookEnded? && p.ticks.stage.Drained?
  }

  // ---- Invariants ----

  ghost predicate DrainOk<T>(d: Drain<T>, done: Flag) {
    && RingOk(d.ring)
    && (!d.stage.Popping? ==> d.ring.consumer.Resting?)
    && (done.Raised? ==> done.view == |d.ring.pushed| && d.ring.producer.Idle?)
    && (d.saw ==> done.Raised? && d.ring.headSeen == |d.ring.pushed|)
    && (d.stage.TestingEmpty? ==> d.saw)
    && (d.stage.Drained? ==> done.Raised? && d.ring.popped == d.ring.pushed)
  }

  /** What ingestion has pushed, and still has to push, is the short frames of the buffer in order. */
  ghost predicate IngestOk(buf: seq<byte>, ingest: Ingest, off: nat, done: Flag,
                           producer: Producer<Frame>, pushed: seq<Frame>) {
    && off <= |buf|
    && (done.Raised? <==> ingest.IngestEnded?)
    && match ingest
       case Scanning => producer.Idle? && Payloads(pushed) + Short(Frames(buf[off..])) == Short(Frames(buf))
       case Pushing(f, n) =>
         && HasFrame(buf[off..]) && n == FrontOf(buf[off..]).size <= MAX_MESSAGE_SIZE && off + n <= |buf|
         && f == FrameOf(buf[off..][..n]) && !producer.Idle?
         && (!producer.Answer? ==> producer.item == f)
         && Payloads(pushed) + (if producer == Answer(true) then [] else [Payload(f)]) + Short(Frames(buf[off..][n..]))
            == Short(Frames(buf))
       case _ => producer.Idle? && Payloads(pushed) == Short(Frames(buf))
  }

  function InFlight<T>(c: Consumer<T>): nat {
    if c.Reply? && c.got.Some? then 1 else 0
  }

  /** The book thread has consumed exactly the popped frames, but for one it has not applied yet. */
  ghost predicate TallyOk(t: Tally, processed: nat, consumer: Consumer<Frame>, popped: seq<Frame>) {
    processed + InFlight(consumer) == |popped| && t == TallyOf(Payloads(popped)[..processed])
  }

  ghost predicate BookOk(book: Book, stage: Stage, done: Flag, producer: Producer<Tick>) {
    && (done.Raised? <==> book.BookEnded?)
    && match book
       case Draining => !stage.Drained? && producer.Idle?
       case Emitting(ts, last) =>
         && stage == (if last then Drained else Popping)
         && (ts == [] ==> producer.Idle?)
         && (!producer.Idle? && !producer.Answer? ==> producer.item == ts[0])
       case _ => stage.Drained? && producer.Idle?
  }

  ghost predicate PipeOk(buf: seq<byte>, p: Pipe) {
    && DrainOk(p.frames, p.ingestDone) && DrainOk(p.ticks, p.bookDone)
    && IngestOk(buf, p.ingest, p.off, p.ingestDone, p.frames.ring.producer, p.frames.ring.pushed)
    && TallyOk(p.tally, p.processed, p.frames.ring.consumer, p.frames.ring.popped)
    && BookOk(p.book, p.frames.stage, p.bookDone, p.ticks.ring.producer)
    && p.events + InFlight(p.ticks.ring.consumer) == |p.ticks.ring.popped|
  }

  lemma RingLengths<T>(r: Ring<T>)
    requires RingOk(r)
    ensures |r.heads| == |r.pushed| + 1 && |r.tails| == |r.popped| + 1 && |r.buffer| >= 2
    ensures r.tailSeen <= |r.popped| <= r.headSeen <= |r.pushed|
    ensures r.popped == r.pushed[..|r.popped|]
    ensures r.consumer.Reply? && r.consumer.got.Some? ==> r.popped != [] && r.popped[|r.popped| - 1] == r.consumer.got.value
  {
    hide PowerOfTwo, Holds, Slot;
  }

  lemma StartedOk(c: Config, buf: seq<byte>)
    requires GoodConfig(c)
    ensures PipeOk(buf, Started(c))
  {
    hide RingOk, Short, Frames, TallyOf, PowerOfTwo;
    NewRingOk<Frame>(c.frameSlots, BLANK);
    NewRingOk(c.tickSlots, NO_TICK);
    assert buf[0..] == buf && Payloads([]) == [] && [] + Short(Frames(buf)) == Short(Frames(buf));
    assert Payloads([])[..0] == [];
  }

  // ---- The drain loop ----

  /** The loop keeps its part of the invariant. The case that matters: it leaves only after a head
      value that covers everything ever pushed told it that the ring is empty. */
  lemma DrainNextOk<T>(d: Drain<T>, done: Flag, k: nat, answer: bool)
    requires DrainOk(d, done) && CanDrain(d, done, k, answer)
    ensures var e := DrainNext(d, done, k, answer);
      && DrainOk(e, done)
      && e.ring.producer == d.ring.producer && e.ring.pushed == d.ring.pushed && e.ring.heads == d.ring.heads
      && |e.ring.popped| - InFlight(e.ring.consumer)
         == |d.ring.popped| - InFlight(d.ring.consumer) + (if Arrived(d).Some? then 1 else 0)
      && d.ring.popped <= e.ring.popped
  {
    hide RingOk, CanConsume, Consume, SeeEmpty;
    RingLengths(d.ring);
    match d.stage
    case Popping =>
      if d.ring.consumer.Resting? || d.ring.consumer.Reply? {
        ConsumerCalls(d.ring);
      } else {
        ConsumeKeepsOk(d.ring, k);
        ConsumeFrame(d.ring, k);
        RingLengths(Consume(d.ring, k));
      }
    case TestingDone =>
      if answer { SeesMore(d.ring, done.view); }
    case TestingEmpty =>
      SeesEmpty(d.ring, k);
      SeeEmptyFrame(d.ring, k);
  }

  lemma SeeEmptyFrame<T>(r: Ring<T>, k: nat)
    requires Loadable(r.heads, r.headSeen, k) && |r.tails| > 0
    ensures SeeEmpty(r, k).0 == r.(headSeen := k)
  {
  }

  lemma ConsumerCalls<T>(r: Ring<T>)
    requires RingOk(r)
    ensures RingOk(r.(consumer := Asked)) && RingOk(r.(consumer := Resting))
  {
    hide PowerOfTwo, Wraps, Holds, Slot;
  }

  lemma ProducerCalls<T>(r: Ring<T>, x: T)
    requires RingOk(r)
    ensures RingOk(r.(producer := Called(x))) && RingOk(r.(producer := Idle))
  {
    hide PowerOfTwo, Wraps, Holds, Slot;
  }

  lemma SeesMore<T>(r: Ring<T>, k: nat)
    requires RingOk(r) && r.consumer.Resting? && k <= |r.pushed|
    ensures RingOk(r.(headSeen := if r.headSeen < k then k else r.headSeen))
  {
    hide PowerOfTwo, Wraps, Holds, Slot;
  }

  // ---- The producing side ----

  /** Until its flag is raised, the producer may do as it likes. */
  lemma ProducerNextOk<T>(d: Drain<T>, k: nat)
    requires DrainOk(d, Unset) && CanProduce(d.ring, k)
    ensures DrainOk(d.(ring := Produce(d.ring, k)), Unset)
  {
    hide RingOk, CanProduce, Produce;
    ProduceKeepsOk(d.ring, k);
    ProduceFrame(d.ring, k);
  }

  lemma ProducerCallsOk<T>(d: Drain<T>, x: T)
    requires DrainOk(d, Unset)
    ensures DrainOk(d.(ring := d.ring.(producer := Called(x))), Unset)
    ensures DrainOk(d.(ring := d.ring.(producer := Idle)), Unset)
  {
    hide RingOk;
    ProducerCalls(d.ring, x);
  }

  lemma RaisedOk<T>(d: Drain<T>)
    requires DrainOk(d, Unset) && d.ring.producer.Idle?
    ensures |d.ring.heads| > 0 && DrainOk(d, Raised(|d.ring.heads| - 1))
  {
    hide RingOk;
    RingLengths(d.ring);
  }

  // ---- Every step keeps the invariant ----

  /** What scanning the front of the remaining bytes does to the frames still to come. */
  lemma ShortFrames(rest: seq<byte>)
    ensures Short(Frames(rest)) ==
      if !HasFrame(rest) then []
      else
        var n := FrontOf(rest).size;
        (if n <= MAX_MESSAGE_SIZE then [rest[..n]] else []) + Short(Frames(rest[n..]))
  {
    hide FrontOf;
    if HasFrame(rest) {
      var n, fs := FrontOf(rest).size, Frames(rest);
      assert fs[0] == rest[..n] && fs[1..] == Frames(rest[n..]);
    }
  }

  lemma PayloadsAppend(fs: seq<Frame>, f: Frame)
    ensures Payloads(fs + [f]) == Payloads(fs) + [Payload(f)]
  {
  }

  lemma IngestScans(buf: seq<byte>, p: Pipe, k: nat)
    requires CanIngest(buf, p, k) && p.ingest.Scanning?
    requires IngestOk(buf, p.ingest, p.off, p.ingestDone, p.frames.ring.producer, p.frames.ring.pushed)
    ensures var q := IngestNext(buf, p, k);
      IngestOk(buf, q.ingest, q.off, q.ingestDone, q.frames.ring.producer, q.frames.ring.pushed)
  {
    hide FrontOf, Frames, Short, Payload;
    var rest := buf[p.off..];
    ShortFrames(rest);
    if HasFrame(rest) {
      var n := FrontOf(rest).size;
      if n <= MAX_MESSAGE_SIZE {
        PayloadOfFrame(rest[..n]);
        var a := Payloads(p.frames.ring.pushed);
        assert a + [rest[..n]] + Short(Frames(rest[n..])) == a + ([rest[..n]] + Short(Frames(rest[n..])));
      } else {
        assert rest[n..] == buf[p.off + n..];
        assert [] + Short(Frames(rest[n..])) == Short(Frames(rest[n..]));
      }
    } else {
      assert Payloads(p.frames.ring.pushed) + [] == Payloads(p.frames.ring.pushed);
    }
  }

  lemma IngestPushes(buf: seq<byte>, p: Pipe, k: nat)
    requires CanIngest(buf, p, k) && p.ingest.Pushing?
    requires IngestOk(buf, p.ingest, p.off, p.ingestDone, p.frames.ring.producer, p.frames.ring.pushed)
    ensures var q := IngestNext(buf, p, k);
      IngestOk(buf, q.ingest, q.off, q.ingestDone, q.frames.ring.producer, q.frames.ring.pushed)
  {
    hide FrontOf, Frames, Short, Payload, Payloads, CanProduce, Produce, FrameOf;
    var ring, f, n := p.frames.ring, p.ingest.frame, p.ingest.size;
    var rest := Short(Frames(buf[p.off..][n..]));
    if !ring.producer.Answer? {
      ProduceFrame(ring, k);
      if ring.producer.Filled? { PayloadsAppend(ring.pushed, f); }
      assert Payloads(ring.pushed) + [Payload(f)] + [] + rest == Payloads(ring.pushed) + [Payload(f)] + rest;
    } else if ring.producer.ok {
      assert buf[p.off..][n..] == buf[p.off + n..];
      assert Payloads(ring.pushed) + [] == Payloads(ring.pushed);
    }
  }

  lemma IngestStepOk(buf: seq<byte>, p: Pipe, k: nat)
    requires PipeOk(buf, p) && CanIngest(buf, p, k)
    ensures PipeOk(buf, IngestNext(buf, p, k))
  {
    hide DrainOk, FrontOf, Frames, Short, TallyOf, CanProduce, Produce, FrameOf, Payloads, TallyOk, BookOk;
    match p.ingest
    case Scanning =>
      IngestScans(buf, p, k);
      hide IngestOk;
      if HasFrame(buf[p.off..]) && FrontOf(buf[p.off..]).size <= MAX_MESSAGE_SIZE {
        ProducerCallsOk(p.frames, IngestNext(buf, p, k).ingest.frame);
      }
    case Pushing(f, n) =>
      IngestPushes(buf, p, k);
      hide IngestOk;
      if p.frames.ring.producer.Answer? {
        ProducerCallsOk(p.frames, f);
      } else {
        ProducerNextOk(p.frames, k);
        ProduceFrame(p.frames.ring, k);
      }
    case IngestFinishing => RaisedOk(p.frames);
  }

  lemma TallyNext(t: Tally, processed: nat, popped: seq<Frame>, more: seq<Frame>)
    requires processed < |popped| && popped <= more
    requires t == TallyOf(Payloads(popped)[..processed])
    ensures Tallied(t, Payload(popped[processed])) == TallyOf(Payloads(more)[..processed + 1])
    ensures t == TallyOf(Payloads(more)[..processed])
  {
    hide Tallied;
    var fs := Payloads(more)[..processed + 1];
    assert fs[..processed] == Payloads(more)[..processed] == Payloads(popped)[..processed];
    assert fs[processed] == Payload(popped[processed]);
  }

  lemma BookDrains(c: Config, buf: seq<byte>, p: Pipe, k: nat, answer: bool, order: seq<nat>)
    requires GoodConfig(c) && PipeOk(buf, p) && CanBook(p, k, answer, order) && p.book.Draining?
    ensures PipeOk(buf, BookNext(c.analyticsEvery, p, k, answer, order))
  {
    hide FrontOf, Frames, Short, TallyOf, Tallied, CanProduce, Produce, CanDrain, FrameOf,
         Payloads, Payload, IngestOk, RingOk;
    var d := DrainNext(p.frames, p.ingestDone, k, answer);
    DrainNextOk(p.frames, p.ingestDone, k, answer);
    RingLengths(p.frames.ring);
    RingLengths(d.ring);
    if Arrived(p.frames).Some? {
      TallyNext(p.tally, p.processed, p.frames.ring.popped, d.ring.popped);
    } else {
      KeepsTally(p.tally, p.processed, p.frames.ring.popped, d.ring.popped);
    }
    hide DrainOk, DrainNext;
  }

  lemma KeepsTally(t: Tally, processed: nat, popped: seq<Frame>, more: seq<Frame>)
    requires processed <= |popped| && popped <= more
    ensures Payloads(popped)[..processed] == Payloads(more)[..processed]
  {
  }

  lemma BookStepOk(c: Config, buf: seq<byte>, p: Pipe, k: nat, answer: bool, order: seq<nat>)
    requires GoodConfig(c) && PipeOk(buf, p) && CanBook(p, k, answer, order)
    ensures PipeOk(buf, BookNext(c.analyticsEvery, p, k, answer, order))
  {
    hide DrainOk, DrainNext, TallyOk, TicksOf, AfterItem, IngestOk, CanProduce, Produce;
    match p.book
    case Draining => BookDrains(c, buf, p, k, answer, order);
    case Emitting(ts, last) =>
      if ts != [] {
        if p.ticks.ring.producer.Idle? || p.ticks.ring.producer.Answer? {
          ProducerCallsOk(p.ticks, ts[0]);
        } else {
          ProducerNextOk(p.ticks, k);
          ProduceFrame(p.ticks.ring, k);
        }
      }
    case BookFinishing => RaisedOk(p.ticks);
  }

  lemma AnalyticsStepOk(buf: seq<byte>, p: Pipe, k: nat, answer: bool)
    requires PipeOk(buf, p) && CanDrain(p.ticks, p.bookDone, k, answer)
    ensures PipeOk(buf, AnalyticsNext(p, k, answer))
  {
    hide DrainOk, DrainNext, CanDrain, TallyOk, IngestOk, BookOk;
    DrainNextOk(p.ticks, p.bookDone, k, answer);
  }

  lemma StepOk(c: Config, buf: seq<byte>, p: Pipe, s: Step)
    requires GoodConfig(c) && PipeOk(buf, p) && Can(buf, p, s)
    ensures PipeOk(buf, Next(c, buf, p, s))
  {
    hide PipeOk, IngestNext, BookNext, AnalyticsNext, GoodConfig, CanIngest, CanBook, CanDrain;
    match s
    case IngestStep(k) => IngestStepOk(buf, p, k);
    case BookStep(k, answer, order) => BookStepOk(c, buf, p, k, answer, order);
    case AnalyticsStep(k, answer) => AnalyticsStepOk(buf, p, k, answer);
  }

  lemma {:induction false} LeadsOk(c: Config, buf: seq<byte>, p: Pipe, steps: seq<Step>, q: Pipe)
    requires GoodConfig(c) && PipeOk(buf, p) && Leads(c, buf, p, steps, q)
    ensures PipeOk(buf, q)
    decreases |steps|
  {
    hide PipeOk, Next, Can, GoodConfig;
    if steps == [] {
    } else {
      StepOk(c, buf, p, steps[0]);
      LeadsOk(c, buf, Next(c, buf, p, steps[0]), steps[1..], q);
    }
  }

  lemma ReachableOk(c: Config, buf: seq<byte>, steps: seq<Step>, p: Pipe)
    requires GoodConfig(c) && Reaches(c, buf, steps, p)
    ensures PipeOk(buf, p)
  {
    hide PipeOk, Leads, GoodConfig;
    StartedOk(c, buf);
    LeadsOk(c, buf, Started(c), steps, p);
  }

  // ---- Main results ----

  /** What an invariant state with a drained ring has done. */
  lemma DrainedIsDone(buf: seq<byte>, p: Pipe)
    requires PipeOk(buf, p)
    ensures p.frames.stage.Drained? ==>
      && p.ingest.IngestEnded? && p.frames.ring.popped == p.frames.ring.pushed
      && Payloads(p.frames.ring.pushed) == Short(Frames(buf)) && p.processed == |Short(Frames(buf))|
    ensures p.book.BookFinishing? || p.book.BookEnded? ==> p.frames.stage.Drained?
    ensures p.ticks.stage.Drained? ==>
      p.book.BookEnded? && p.ticks.ring.popped == p.ticks.ring.pushed && p.events == |p.ticks.ring.pushed|
  {
    hide RingOk, Frames, Short, FrontOf, TallyOf, Payload, FrameOf, Payloads;
    assert |Payloads(p.frames.ring.pushed)| == |p.frames.ring.pushed|;
  }

  /** Shutdown loses nothing. In every interleaving the book thread is past its loop only when it has
      popped and applied every frame ingestion pushed, which are the short frames of the buffer; and
      the analytics thread has ended only when it has counted every tick whose push succeeded. */
  lemma NothingLeftBehind(c: Config, buf: seq<byte>, steps: seq<Step>, p: Pipe)
    requires GoodConfig(c) && Reaches(c, buf, steps, p)
    ensures p.frames.stage.Drained? ==>
      && p.ingest.IngestEnded? && p.frames.ring.popped == p.frames.ring.pushed
      && Payloads(p.frames.ring.pushed) == Short(Frames(buf)) && p.processed == |Short(Frames(buf))|
    ensures p.book.BookFinishing? || p.book.BookEnded? ==> p.frames.stage.Drained?
    ensures p.ticks.stage.Drained? ==>
      p.book.BookEnded? && p.ticks.ring.popped == p.ticks.ring.pushed && p.events == |p.ticks.ring.pushed|
  {
    hide PipeOk, Frames, Short, Payloads, Reaches;
    ReachableOk(c, buf, steps, p);
    DrainedIsDone(buf, p);
  }

  /** A tally equals one `consume` of the whole buffer by a fresh handler, but for malformed notices: the
      books, the sequence state, the forwarded and dropped counts, the builder's other counters and the
      number of messages are the same; the malformed count of `consume` is larger by the frames too long
      for a pipeline frame, and by one if the walk stopped at an undecodable header. */
  ghost predicate AgreesWithConsume(buf: seq<byte>, t: Tally) {
    var (g, r) := Consumed(FRESH_FEED, buf);
    && t.feed.down.books == g.down.books
    && t.feed.tracker == g.tracker && t.feed.forwarded == g.forwarded && t.feed.dropped == g.dropped
    && t.feed.down.stats == g.down.stats.(malformed := t.feed.down.stats.malformed)
    && t.parsed == r.messages
    && r.malformed == t.malformed + Skipped(Frames(buf)) + (if Parse(buf).stopped then 1 else 0)
  }

  lemma EndedAgrees(buf: seq<byte>, p: Pipe)
    requires PipeOk(buf, p) && Ended(p)
    ensures AgreesWithConsume(buf, p.tally)
  {
    hide Frames, Short, FrontOf, TallyOf, Consumed, Parse, Payloads, IngestOk, DrainOk, BookOk;
    DrainedIsDone(buf, p);
    var fs := Payloads(p.frames.ring.popped);
    assert fs[..p.processed] == fs;
    TallyIsConsume(buf);
  }

  /** Every interleaving of the three threads computes what one call of `consume` computes, once all three
      have ended. */
  lemma EveryInterleavingIsConsume(c: Config, buf: seq<byte>, steps: seq<Step>, p: Pipe)
    requires GoodConfig(c) && Reaches(c, buf, steps, p) && Ended(p)
    ensures AgreesWithConsume(buf, p.tally)
  {
    hide PipeOk, AgreesWithConsume, Reaches;
    ReachableOk(c, buf, steps, p);
    EndedAgrees(buf, p);
  }
}
