/** The pipeline cannot get stuck (include/mdfh/pipeline.hpp:77-140,156-164): in every state some thread
    can take a step that lowers a well-founded measure, so backpressure, lossy ticks and the flag
    checks never deadlock, and from every reachable state all three threads can end. */
module PipelineProgress {
  import opened Protocol
  import opened BookBuilding
  import opened Parsing
  import opened FrameTallies
  import opened SpscQueues
  import opened SpscRings
  import opened Pipelines

  // ---- One ring ----

  /** How far a push attempt is from its answer. */
  function PushRank<T>(p: Producer<T>): nat {
    match p
    case Idle => 6
    case Called(_) => 5
    case HaveHead(_, _) => 4
    case HaveRoom(_, _) => 3
    case Filled(_, _) => 2
    case Answer(_) => 1
  }

  /** A push attempt can always take its next step, and into an empty ring it succeeds if it reads the
      latest tail. */
  lemma PushMoves<T>(r: Ring<T>)
    requires RingOk(r) && !r.producer.Idle? && !r.producer.Answer?
    ensures CanProduce(r, |r.popped|)
    ensures PushRank(Produce(r, |r.popped|).producer) < PushRank(r.producer)
    ensures |r.popped| == |r.pushed| ==> Produce(r, |r.popped|).producer != Answer(false)
  {
    hide PowerOfTwo, BitAnd, Slot, Holds;
    if r.producer.HaveHead? { PushFailsIffFull(r, |r.popped|); }
  }

  /** How far a drain loop is from its next item, if there is one, or from its end. */
  function DrainRank<T>(d: Drain<T>): nat {
    var more := |d.ring.popped| < |d.ring.pushed|;
    match d.stage
    case Popping =>
      (match d.ring.consumer
       case Resting => if more then 5 else 8
       case Asked => if more then 4 else 7
       case HaveTail(_) => if more then 3 else 6
       case HaveItem(_) => 2
       case Taken(_, _) => 1
       case Reply(None) => if more then 9 else 5
       case Reply(Some(_)) => 0)
    case TestingDone => if more then 8 else 4
    case TestingEmpty => if more then 7 else 3
    case Drained => 0
  }

  lemma PopMoves<T>(r: Ring<T>)
    requires RingOk(r) && !r.consumer.Resting? && !r.consumer.Reply?
    ensures CanConsume(r, |r.pushed|)
    ensures var s := Consume(r, |r.pushed|);
      match r.consumer
      case Asked => s.consumer.HaveTail?
      case HaveTail(_) => if |r.popped| == |r.pushed| then s.consumer == Reply(None) else s.consumer.HaveItem?
      case HaveItem(_) => s.consumer.Taken?
      case _ => s.consumer.Reply? && s.consumer.got.Some?
    ensures r.consumer.HaveItem? || r.consumer.Taken? ==> |r.popped| < |r.pushed|
  {
    hide PowerOfTwo, BitAnd, Slot, Holds;
    if r.consumer.HaveTail? { PopFailsIffEmpty(r, |r.pushed|); }
  }

  /** With an item to pop or a raised flag, and reading the latest values, the loop hands over an item
      or gets closer to doing so or to ending. */
  lemma DrainMoves<T>(d: Drain<T>, done: Flag)
    requires DrainOk(d, done) && !d.stage.Drained?
    requires |d.ring.popped| < |d.ring.pushed| || done.Raised? || Arrived(d).Some?
    ensures CanDrain(d, done, |d.ring.pushed|, done.Raised?)
    ensures Arrived(d).Some? || DrainRank(DrainNext(d, done, |d.ring.pushed|, done.Raised?)) < DrainRank(d)
  {
    hide RingOk, CanConsume, Consume, SeeEmpty;
    RingLengths(d.ring);
    match d.stage
    case Popping =>
      if !d.ring.consumer.Resting? && !d.ring.consumer.Reply? {
        PopMoves(d.ring);
        ConsumeFrame(d.ring, |d.ring.pushed|);
      }
    case TestingDone =>
    case TestingEmpty =>
      SeesEmpty(d.ring, |d.ring.pushed|);
      SeeEmptyFrame(d.ring, |d.ring.pushed|);
  }

  // ---- The measure ----

  function IngestRank(ingest: Ingest, producer: Producer<Frame>): nat {
    match ingest
    case Scanning => 8
    case Pushing(_, _) => if producer == Answer(false) then 7 else PushRank(producer)
    case IngestFinishing => 1
    case IngestEnded => 0
  }

  /** Ingestion is due while the book thread waits at an empty ring for more. */
  predicate IngestDue(p: Pipe) {
    p.book.Draining? && |p.frames.ring.popped| == |p.frames.ring.pushed| && !p.ingest.IngestEnded?
    && Arrived(p.frames).None?
  }

  function PhaseOf(b: Book): nat {
    match b
    case Emitting(_, last) => if last then 2 else 4
    case Draining => 3
    case BookFinishing => 1
    case BookEnded => 0
  }

  function BookRank(b: Book, frames: Drain<Frame>, ticks: Producer<Tick>): nat {
    match b
    case Draining => DrainRank(frames)
    case Emitting(_, _) => PushRank(ticks)
    case _ => 0
  }

  /** Compared lexicographically. Of the three ranks at the end only that of the thread everything waits for
      counts, so that no other thread's retries can raise the measure. */
  datatype Rank = Rank(unapplied: nat, phase: nat, pending: nat, toScan: nat,
                       ingest: nat, book: nat, uncounted: nat, analytics: nat)

  function Minus(a: nat, b: nat): nat {
    if b <= a then a - b else 0
  }

  function RankOf(buf: seq<byte>, p: Pipe): Rank {
    Rank(Minus(|Short(Frames(buf))|, p.processed),
         PhaseOf(p.book),
         if p.book.Emitting? then |p.book.ticks| else 0,
         Minus(|buf|, p.off) + (if p.ingest.IngestEnded? then 0 else 1),
         if IngestDue(p) then IngestRank(p.ingest, p.frames.ring.producer) else 0,
         if IngestDue(p) then 0 else BookRank(p.book, p.frames, p.ticks.ring.producer),
         Minus(|p.ticks.ring.pushed|, p.events),
         if p.book.BookEnded? then DrainRank(p.ticks) else 0)
  }

  predicate Lower(a: Rank, b: Rank) {
    if a.unapplied != b.unapplied then a.unapplied < b.unapplied
    else if a.phase != b.phase then a.phase < b.phase
    else if a.pending != b.pending then a.pending < b.pending
    else if a.toScan != b.toScan then a.toScan < b.toScan
    else if a.ingest != b.ingest then a.ingest < b.ingest
    else if a.book != b.book then a.book < b.book
    else if a.uncounted != b.uncounted then a.uncounted < b.uncounted
    else a.analytics < b.analytics
  }

  // ---- Orders to visit the books in ----

  lemma {:induction false} KeysEnumerate(keys: set<nat>)
    ensures exists order: seq<nat> :: (forall s :: s in order <==> s in keys) && Distinct(order)
    decreases |keys|
  {
    if keys == {} {
      var none: seq<nat> := [];
      assert (forall s :: s in none <==> s in keys) && Distinct(none);
    } else {
      var s :| s in keys;
      KeysEnumerate(keys - {s});
      var rest: seq<nat> :| (forall t :: t in rest <==> t in keys - {s}) && Distinct(rest);
      var order := rest + [s];
      assert forall t :: t in order <==> t in keys;
      forall i, j | 0 <= i < j < |order| ensures order[i] != order[j] {
        assert order[i] in rest;
      }
      assert Distinct(order);
    }
  }

  lemma SomeOrder(books: Books)
    ensures exists order :: Enumerates(order, books)
  {
    KeysEnumerate(books.Keys);
    var order: seq<nat> :| (forall s :: s in order <==> s in books.Keys) && Distinct(order);
    assert Enumerates(order, books);
  }

  // ---- Threads ----

  datatype Thread = Ingestion | BookUpdate | Analytics

  function ThreadOf(s: Step): Thread {
    match s
    case IngestStep(_) => Ingestion
    case BookStep(_, _, _) => BookUpdate
    case AnalyticsStep(_, _) => Analytics
  }

  predicate HasEnded(p: Pipe, t: Thread) {
    match t
    case Ingestion => p.ingest.IngestEnded?
    case BookUpdate => p.book.BookEnded?
    case Analytics => p.ticks.stage.Drained?
  }

  /** The thread everything waits for. */
  function Awaited(p: Pipe): Thread {
    if IngestDue(p) then Ingestion else if !p.book.BookEnded? then BookUpdate else Analytics
  }

  /** Whatever the step loads is the latest value stored. (A step that loads nothing ignores `k` and
      `answer`.) */
  predicate ReadsLatest(p: Pipe, s: Step) {
    match s
    case IngestStep(k) => k + 1 == |p.frames.ring.tails|
    case BookStep(k, answer, _) =>
      if p.book.Draining? then k + 1 == |p.frames.ring.heads| && answer == p.ingestDone.Raised?
      else k + 1 == |p.ticks.ring.tails|
    case AnalyticsStep(k, answer) => k + 1 == |p.ticks.ring.heads| && answer == p.bookDone.Raised?
  }

  /** A step that gets the pipeline closer to its end, or leaves open who is awaited and how long. */
  predicate Helps(buf: seq<byte>, p: Pipe, q: Pipe) {
    Lower(RankOf(buf, q), RankOf(buf, p))
  }

  predicate Idles(buf: seq<byte>, p: Pipe, q: Pipe) {
    RankOf(buf, q) == RankOf(buf, p) && Awaited(q) == Awaited(p)
  }

  lemma AppliedBound(buf: seq<byte>, p: Pipe)
    requires PipeOk(buf, p)
    ensures p.processed + InFlight(p.frames.ring.consumer) <= |Short(Frames(buf))|
    ensures p.events + InFlight(p.ticks.ring.consumer) <= |p.ticks.ring.pushed|
  {
    hide RingOk, Frames, Short, FrontOf, Payload, FrameOf, BookOk;
    RingLengths(p.frames.ring);
    RingLengths(p.ticks.ring);
    assert |Payloads(p.frames.ring.pushed)| <= |Short(Frames(buf))|;
  }

  // ---- Ingestion ----

  lemma IngestMoves(buf: seq<byte>, p: Pipe)
    requires PipeOk(buf, p) && IngestDue(p)
    ensures CanIngest(buf, p, |p.frames.ring.popped|)
    ensures Helps(buf, p, IngestNext(buf, p, |p.frames.ring.popped|))
  {
    hide RingOk, Frames, Short, FrontOf, Payload, Payloads, FrameOf, CanProduce, Produce, TallyOk, BookOk, DrainRank;
    RingLengths(p.frames.ring);
    if p.ingest.Pushing? && !p.frames.ring.producer.Answer? {
      PushMoves(p.frames.ring);
      ProduceFrame(p.frames.ring, |p.frames.ring.popped|);
    }
  }

  /** While another thread is awaited, ingestion's steps and retries do no harm. */
  lemma IngestIdles(buf: seq<byte>, p: Pipe, k: nat)
    requires PipeOk(buf, p) && !IngestDue(p) && CanIngest(buf, p, k)
    ensures var q := IngestNext(buf, p, k); Helps(buf, p, q) || Idles(buf, p, q)
  {
    hide RingOk, Frames, Short, FrontOf, Payload, Payloads, FrameOf, CanProduce, Produce, TallyOk;
    RingLengths(p.frames.ring);
    if p.ingest.Pushing? && !p.frames.ring.producer.Answer? {
      ProduceFrame(p.frames.ring, k);
    }
  }

  // ---- The book thread ----

  lemma BookMovesOn(c: Config, buf: seq<byte>, p: Pipe, order: seq<nat>)
    requires GoodConfig(c) && PipeOk(buf, p) && p.book.Draining? && !IngestDue(p)
    requires Enumerates(order, AfterItem(p).feed.down.books)
    ensures CanBook(p, |p.frames.ring.pushed|, p.ingestDone.Raised?, order)
    ensures Helps(buf, p, BookNext(c.analyticsEvery, p, |p.frames.ring.pushed|, p.ingestDone.Raised?, order))
  {
    hide Frames, Short, FrontOf, Payload, Payloads, FrameOf, Tallied, TallyOf, TicksOf, Enumerates,
         CanDrain, DrainNext, DrainRank, RingOk, IngestRank;
    AppliedBound(buf, p);
    RingLengths(p.frames.ring);
    DrainMoves(p.frames, p.ingestDone);
    DrainNextOk(p.frames, p.ingestDone, |p.frames.ring.pushed|, p.ingestDone.Raised?);
    hide IngestOk, DrainOk, TallyOk;
  }

  /** Emitting ticks never blocks: a full ring drops the tick. */
  lemma BookEmits(c: Config, buf: seq<byte>, p: Pipe, answer: bool, order: seq<nat>)
    requires GoodConfig(c) && DrainOk(p.ticks, p.bookDone)
    requires BookOk(p.book, p.frames.stage, p.bookDone, p.ticks.ring.producer)
    requires p.book.Emitting? || p.book.BookFinishing?
    ensures CanBook(p, |p.ticks.ring.popped|, answer, order)
    ensures Helps(buf, p, BookNext(c.analyticsEvery, p, |p.ticks.ring.popped|, answer, order))
  {
    hide Frames, Short, CanProduce, Produce, RingOk, Minus, IngestRank, PowerOfTwo, DrainRank;
    RingLengths(p.ticks.ring);
    if p.book.Emitting? && p.book.ticks != [] && !p.ticks.ring.producer.Idle? && !p.ticks.ring.producer.Answer? {
      PushMoves(p.ticks.ring);
      hide DrainOk, PushRank;
    }
  }

  /** While ingestion is awaited, the book thread only goes round its loop. */
  lemma BookIdles(c: Config, buf: seq<byte>, p: Pipe, k: nat, answer: bool, order: seq<nat>)
    requires GoodConfig(c) && PipeOk(buf, p) && IngestDue(p) && CanBook(p, k, answer, order)
    ensures Idles(buf, p, BookNext(c.analyticsEvery, p, k, answer, order))
  {
    hide Frames, Short, FrontOf, Payload, Payloads, FrameOf, Tallied, TallyOf, TicksOf, Enumerates,
         CanDrain, DrainNext, DrainRank, RingOk, IngestRank;
    DrainNextOk(p.frames, p.ingestDone, k, answer);
    RingLengths(p.frames.ring);
    RingLengths(DrainNext(p.frames, p.ingestDone, k, answer).ring);
    hide TallyOk;
  }

  // ---- Analytics ----

  lemma AnalyticsMoves(buf: seq<byte>, p: Pipe)
    requires PipeOk(buf, p) && p.book.BookEnded? && !p.ticks.stage.Drained?
    ensures CanDrain(p.ticks, p.bookDone, |p.ticks.ring.pushed|, p.bookDone.Raised?)
    ensures Helps(buf, p, AnalyticsNext(p, |p.ticks.ring.pushed|, p.bookDone.Raised?))
  {
    hide Frames, Short, CanDrain, DrainNext, DrainRank, IngestRank, BookRank;
    AppliedBound(buf, p);
    DrainMoves(p.ticks, p.bookDone);
    DrainNextOk(p.ticks, p.bookDone, |p.ticks.ring.pushed|, p.bookDone.Raised?);
    hide IngestOk, DrainOk, TallyOk;
  }

  /** While another thread is awaited, analytics may only count. */
  lemma AnalyticsIdles(buf: seq<byte>, p: Pipe, k: nat, answer: bool)
    requires PipeOk(buf, p) && !p.book.BookEnded? && CanDrain(p.ticks, p.bookDone, k, answer)
    ensures var q := AnalyticsNext(p, k, answer); Helps(buf, p, q) || Idles(buf, p, q)
  {
    hide Frames, Short, CanDrain, DrainNext, DrainRank, IngestRank, PushRank;
    DrainNextOk(p.ticks, p.bookDone, k, answer);
    hide IngestOk, DrainOk, TallyOk, BookOk;
  }

  // ---- Every step ----

  /** A step that reads the latest values never gets the pipeline further from its end, and one of the
      awaited thread gets it closer. */
  lemma StepHelpsOrIdles(c: Config, buf: seq<byte>, p: Pipe, s: Step)
    requires GoodConfig(c) && PipeOk(buf, p) && Can(buf, p, s) && ReadsLatest(p, s)
    ensures var q := Next(c, buf, p, s);
      (Helps(buf, p, q) || Idles(buf, p, q)) && (ThreadOf(s) == Awaited(p) ==> Helps(buf, p, q))
  {
    hide RingOk, IngestOk, TallyOk, Helps, Idles, IngestNext, BookNext, AnalyticsNext, CanIngest, CanDrain, AfterItem, Enumerates;
    RingLengths(p.frames.ring);
    RingLengths(p.ticks.ring);
    hide DrainOk;
    match s
    case IngestStep(k) =>
      if IngestDue(p) { IngestMoves(buf, p); } else { IngestIdles(buf, p, k); }
    case BookStep(k, answer, order) =>
      if IngestDue(p) { BookIdles(c, buf, p, k, answer, order); }
      else if p.book.Draining? { BookMovesOn(c, buf, p, order); }
      else { BookEmits(c, buf, p, answer, order); }
    case AnalyticsStep(k, answer) =>
      hide CanBook;
      if p.book.BookEnded? {
        assert !p.ticks.stage.Drained? by { DrainedCannot(p.ticks, p.bookDone, k, answer); }
        AnalyticsMoves(buf, p);
      } else {
        AnalyticsIdles(buf, p, k, answer);
      }
  }

  lemma DrainedCannot<T>(d: Drain<T>, done: Flag, k: nat, answer: bool)
    ensures CanDrain(d, done, k, answer) ==> !d.stage.Drained?
  {
  }

  lemma IngestIsOver(buf: seq<byte>, p: Pipe)
    requires PipeOk(buf, p) && p.book.BookEnded?
    ensures p.ingest.IngestEnded?
  {
    hide RingOk, Frames, Short, TallyOk;
  }

  /** A thread that has not ended is never blocked: reading the latest values, it can take its next step. */
  lemma NeverBlocked(buf: seq<byte>, p: Pipe, t: Thread) returns (s: Step)
    requires PipeOk(buf, p) && !HasEnded(p, t)
    ensures ThreadOf(s) == t && Can(buf, p, s) && ReadsLatest(p, s)
  {
    hide RingOk, Frames, Short, FrontOf, Payload, Payloads, FrameOf, TallyOk, CanProduce, CanConsume, Enumerates;
    RingLengths(p.frames.ring);
    RingLengths(p.ticks.ring);
    match t
    case Ingestion =>
      s := IngestStep(|p.frames.ring.popped|);
      if p.ingest.Pushing? && !p.frames.ring.producer.Answer? { PushMoves(p.frames.ring); }
    case BookUpdate =>
      SomeOrder(AfterItem(p).feed.down.books);
      var order :| Enumerates(order, AfterItem(p).feed.down.books);
      if p.book.Draining? {
        CanAlwaysDrain(p.frames, p.ingestDone);
        s := BookStep(|p.frames.ring.pushed|, p.ingestDone.Raised?, order);
      } else {
        if p.book.Emitting? && !p.ticks.ring.producer.Idle? && !p.ticks.ring.producer.Answer? { PushMoves(p.ticks.ring); }
        s := BookStep(|p.ticks.ring.popped|, false, order);
      }
    case Analytics =>
      CanAlwaysDrain(p.ticks, p.bookDone);
      s := AnalyticsStep(|p.ticks.ring.pushed|, p.bookDone.Raised?);
  }

  lemma CanAlwaysDrain<T>(d: Drain<T>, done: Flag)
    requires DrainOk(d, done) && !d.stage.Drained?
    ensures CanDrain(d, done, |d.ring.pushed|, done.Raised?)
  {
    hide RingOk, CanConsume;
    RingLengths(d.ring);
    if d.stage.Popping? && !d.ring.consumer.Resting? && !d.ring.consumer.Reply? { PopMoves(d.ring); }
  }

  lemma AwaitedHasNotEnded(buf: seq<byte>, p: Pipe)
    requires PipeOk(buf, p) && !Ended(p)
    ensures !HasEnded(p, Awaited(p))
  {
    hide PipeOk;
    if p.book.BookEnded? { IngestIsOver(buf, p); }
  }

  /** In every unfinished state some thread can take a step that lowers the measure. */
  lemma SomeThreadMoves(c: Config, buf: seq<byte>, p: Pipe) returns (s: Step)
    requires GoodConfig(c) && PipeOk(buf, p) && !Ended(p)
    ensures Can(buf, p, s) && Helps(buf, p, Next(c, buf, p, s))
  {
    hide PipeOk, Can, Next, Helps, Idles, HasEnded, ReadsLatest, GoodConfig;
    AwaitedHasNotEnded(buf, p);
    s := NeverBlocked(buf, p, Awaited(p));
    StepHelpsOrIdles(c, buf, p, s);
  }

  // ---- Some continuation ends ----

  /** From every state in order, some finite interleaving ends all three threads. */
  lemma {:induction false} CanEnd(c: Config, buf: seq<byte>, p: Pipe) returns (more: seq<Step>, q: Pipe)
    requires GoodConfig(c) && PipeOk(buf, p)
    ensures Leads(c, buf, p, more, q) && Ended(q)
    decreases RankOf(buf, p).unapplied, RankOf(buf, p).phase, RankOf(buf, p).pending, RankOf(buf, p).toScan,
              RankOf(buf, p).ingest, RankOf(buf, p).book, RankOf(buf, p).uncounted, RankOf(buf, p).analytics
  {
    hide PipeOk, RankOf, Next, Can, GoodConfig;
    if Ended(p) {
      more, q := [], p;
    } else {
      var s := SomeThreadMoves(c, buf, p);
      StepOk(c, buf, p, s);
      var rest, end := CanEnd(c, buf, Next(c, buf, p, s));
      more, q := [s] + rest, end;
      assert more[1..] == rest;
    }
  }

  lemma {:induction false} LeadsOn(c: Config, buf: seq<byte>, p: Pipe, a: seq<Step>, q: Pipe, b: seq<Step>, r: Pipe)
    requires GoodConfig(c) && Leads(c, buf, p, a, q) && Leads(c, buf, q, b, r)
    ensures Leads(c, buf, p, a + b, r)
    decreases |a|
  {
    hide Next, Can, GoodConfig;
    if a == [] {
      assert a + b == b;
    } else {
      assert (a + b)[1..] == a[1..] + b;
      LeadsOn(c, buf, Next(c, buf, p, a[0]), a[1..], q, b, r);
    }
  }

  /** No deadlock: every run, however it went so far, can be continued until all three threads have
      ended. */
  lemma CanFinish(c: Config, buf: seq<byte>, steps: seq<Step>, p: Pipe) returns (more: seq<Step>, q: Pipe)
    requires GoodConfig(c) && Reaches(c, buf, steps, p)
    ensures Reaches(c, buf, steps + more, q) && Ended(q)
  {
    hide Leads, PipeOk, GoodConfig;
    ReachableOk(c, buf, steps, p);
    more, q := CanEnd(c, buf, p);
    LeadsOn(c, buf, Started(c), steps, p, more, q);
  }

  // ---- Every fair run ends ----

  /** A turn of a thread that has ended changes nothing; any other is one of its steps. */
  ghost predicate Turn(c: Config, buf: seq<byte>, run: nat -> Pipe, turn: nat -> Step, i: nat)
    requires GoodConfig(c)
  {
    if HasEnded(run(i), ThreadOf(turn(i))) then run(i + 1) == run(i)
    else Can(buf, run(i), turn(i)) && run(i + 1) == Next(c, buf, run(i), turn(i))
  }

  /** An infinite run of the pipeline. */
  ghost predicate IsRun(c: Config, buf: seq<byte>, run: nat -> Pipe, turn: nat -> Step)
    requires GoodConfig(c)
  {
    run(0) == Started(c) && forall i: nat :: Turn(c, buf, run, turn, i)
  }

  ghost predicate TakesTurn(turn: nat -> Step, t: Thread, i: nat, j: nat) {
    i <= j && ThreadOf(turn(j)) == t
  }

  ghost predicate ScheduledAgain(turn: nat -> Step, t: Thread, i: nat) {
    exists j: nat :: TakesTurn(turn, t, i, j)
  }

  /** Every thread keeps being scheduled. */
  ghost predicate Fair(turn: nat -> Step) {
    forall t: Thread, i: nat :: ScheduledAgain(turn, t, i)
  }

  ghost predicate LatestAt(run: nat -> Pipe, turn: nat -> Step, i: nat) {
    HasEnded(run(i), ThreadOf(turn(i))) || ReadsLatest(run(i), turn(i))
  }

  /** Stores become visible: from turn `n` on no load is stale. */
  ghost predicate FreshFrom(run: nat -> Pipe, turn: nat -> Step, n: nat) {
    forall i: nat :: n <= i ==> LatestAt(run, turn, i)
  }

  lemma {:induction false} RunOk(c: Config, buf: seq<byte>, run: nat -> Pipe, turn: nat -> Step, i: nat)
    requires GoodConfig(c) && IsRun(c, buf, run, turn)
    ensures PipeOk(buf, run(i))
    decreases i
  {
    hide PipeOk, Next, Can, GoodConfig, HasEnded;
    if i == 0 {
      StartedOk(c, buf);
    } else {
      RunOk(c, buf, run, turn, i - 1);
      assert Turn(c, buf, run, turn, i - 1);
      if !HasEnded(run(i - 1), ThreadOf(turn(i - 1))) { StepOk(c, buf, run(i - 1), turn(i - 1)); }
    }
  }

  lemma {:induction false} EndsFrom(c: Config, buf: seq<byte>, run: nat -> Pipe, turn: nat -> Step,
                                    n: nat, i: nat, j: nat) returns (m: nat)
    requires GoodConfig(c) && IsRun(c, buf, run, turn) && Fair(turn) && FreshFrom(run, turn, n)
    requires n <= i && TakesTurn(turn, Awaited(run(i)), i, j)
    ensures Ended(run(m))
    decreases RankOf(buf, run(i)).unapplied, RankOf(buf, run(i)).phase, RankOf(buf, run(i)).pending,
              RankOf(buf, run(i)).toScan, RankOf(buf, run(i)).ingest, RankOf(buf, run(i)).book,
              RankOf(buf, run(i)).uncounted, RankOf(buf, run(i)).analytics, j - i
  {
    hide PipeOk, RankOf, Next, Can, GoodConfig, HasEnded, Awaited, ReadsLatest, Ended;
    if Ended(run(i)) { return i; }
    RunOk(c, buf, run, turn, i);
    AwaitedHasNotEnded(buf, run(i));
    assert Turn(c, buf, run, turn, i) && LatestAt(run, turn, i);
    if !HasEnded(run(i), ThreadOf(turn(i))) {
      StepHelpsOrIdles(c, buf, run(i), turn(i));
      if Helps(buf, run(i), run(i + 1)) {
        var next, t := i + 1, Awaited(run(i + 1));
        assert ScheduledAgain(turn, t, next);
        var k: nat :| TakesTurn(turn, t, next, k);
        m := EndsFrom(c, buf, run, turn, n, i + 1, k);
        return;
      }
    }
    m := EndsFrom(c, buf, run, turn, n, i + 1, j);
  }

  /** Every fair run ends. Whatever the schedule, as long as each thread keeps being scheduled and stale
      loads stop at some point, all three threads come to their end, with the result of one `consume`. */
  lemma FairRunsEnd(c: Config, buf: seq<byte>, run: nat -> Pipe, turn: nat -> Step, n: nat)
    requires GoodConfig(c) && IsRun(c, buf, run, turn) && Fair(turn) && FreshFrom(run, turn, n)
    ensures exists m: nat :: Ended(run(m)) && AgreesWithConsume(buf, run(m).tally)
  {
    hide PipeOk, GoodConfig, Ended, Awaited, AgreesWithConsume;
    assert ScheduledAgain(turn, Awaited(run(n)), n);
    var j: nat :| TakesTurn(turn, Awaited(run(n)), n, j);
    var m := EndsFrom(c, buf, run, turn, n, n, j);
    RunOk(c, buf, run, turn, m);
    EndedAgrees(buf, run(m));
  }
}
