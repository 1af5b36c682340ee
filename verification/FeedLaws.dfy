/** Laws of whole feeds: what any run of `consume` and `consume_datagram` accounts for, and what the
    sequence filter makes of stale and repeated messages (include/mdfh/feed_handler.hpp:34-114). */
module FeedLaws {
  import opened Protocol
  import opened SequenceTracking
  import opened BookBuilding
  import opened Parsing
  import opened FeedHandling

  // ---- Accounting over runs of calls ----

  datatype Call = Stream(bytes: seq<byte>) | Datagram(bytes: seq<byte>)

  function Called(f: FeedState, c: Call): (FeedState, ParseResult) {
    match c
    case Stream(bytes) => Consumed(f, bytes)
    case Datagram(bytes) => ConsumedDatagram(f, bytes)
  }

  /** A run of calls: the handler's state, the summed `messages` and `bytes_consumed`. */
  datatype Run = Run(state: FeedState, messages: nat, consumed: nat, received: nat)

  function RunOf(calls: seq<Call>): Run {
    if calls == [] then Run(FRESH_FEED, 0, 0, 0)
    else
      var (run, c) := (RunOf(calls[..|calls| - 1]), calls[|calls| - 1]);
      var (state, r) := Called(run.state, c);
      Run(state, run.messages + r.messages, run.consumed + r.bytesConsumed, run.received + |c.bytes|)
  }

  /** The counters one callback moves. */
  ghost predicate Balanced(f: FeedState, messages: nat, malformed: nat) {
    && messages == f.forwarded + f.dropped == f.tracker.stats.total
    && f.forwarded == EventCount(f.down.stats)
    && malformed == f.down.stats.malformed
  }

  lemma DeliveredBalances(f: FeedState, x: Item, messages: nat, malformed: nat)
    requires Balanced(f, messages, malformed)
    ensures Balanced(Delivered(f, x), messages + (if x.Event? then 1 else 0), malformed + (if x.Event? then 0 else 1))
  {
    hide Applied, MalformedSeen, EventCount;
    AppliedCounts(f.down, if x.Event? then x.message.body else Heartbeat);
  }

  lemma {:induction false} DeliveryBalances(f: FeedState, items: seq<Item>, messages: nat, malformed: nat)
    requires Balanced(f, messages, malformed)
    ensures Balanced(DeliveredAll(f, items), messages + EventsIn(items), malformed + MalformedIn(items))
  {
    hide Delivered, Balanced;
    if items == [] {
    } else {
      var n := |items| - 1;
      DeliveryBalances(f, items[..n], messages, malformed);
      assert items == items[..n] + [items[n]];
      Appended(f, items[..n], items[n]);
      DeliveredBalances(DeliveredAll(f, items[..n]), items[n],
                        messages + EventsIn(items[..n]), malformed + MalformedIn(items[..n]));
    }
  }

  lemma CalledBalances(f: FeedState, c: Call, messages: nat)
    requires Balanced(f, messages, f.malformed)
    ensures var (g, r) := Called(f, c); Balanced(g, messages + r.messages, g.malformed)
  {
    hide Parse, DeliveredAll, EventsIn, MalformedIn;
    var items := Parse(if c.Stream? then f.residual + c.bytes else c.bytes).items;
    DeliveryBalances(f, items, messages, f.malformed);
    DeliveryKeepsResidual(f, [], items);
  }

  /** In every run of stream and datagram calls: every message counted by the parser was forwarded or
      dropped and observed once by the tracker; every forwarded one moved exactly one event counter of
      the builder; the two malformed counters agree. */
  lemma {:induction false} Accounting(calls: seq<Call>)
    ensures var run := RunOf(calls);
      && run.messages == run.state.forwarded + run.state.dropped == run.state.tracker.stats.total
      && run.state.forwarded == EventCount(run.state.down.stats)
      && run.state.malformed == run.state.down.stats.malformed
  {
    hide Called;
    if calls == [] {
    } else {
      var n := |calls| - 1;
      Accounting(calls[..n]);
      CalledBalances(RunOf(calls[..n]).state, calls[n], RunOf(calls[..n]).messages);
    }
  }

  /** On the stream-only path no byte is lost: bytes received are bytes consumed plus bytes pending. */
  lemma {:induction false} BytesBalance(calls: seq<Call>)
    requires forall c :: c in calls ==> c.Stream?
    ensures var run := RunOf(calls); run.received == run.consumed + |run.state.residual|
  {
    hide Parse, DeliveredAll;
    if calls == [] {
    } else {
      var n := |calls| - 1;
      assert calls[n] in calls && forall c :: c in calls[..n] ==> c in calls;
      BytesBalance(calls[..n]);
    }
  }

  /** A cut-off message at the end of a datagram leaves no trace: whole frames followed by bytes that the
      parser would wait on have the effect and the counts of the whole frames alone. */
  lemma TruncatedDatagram(f: FeedState, whole: seq<byte>, cut: seq<byte>)
    requires !Parse(whole).stopped && Parse(whole).consumed == |whole| && Waits(cut)
    ensures var ((g, r), (h, q)) := (ConsumedDatagram(f, whole + cut), ConsumedDatagram(f, whole));
      && g == h && r == q.(needsMore := FrontOf(cut).Partial?) && r.bytesConsumed == |whole|
  {
    hide Parse, FrontOf, DeliveredAll;
    ParseSplit(whole, cut);
    ParseUnfolds(cut);
    assert whole[|whole|..] + cut == cut;
    assert Parse(whole).items + [] == Parse(whole).items;
  }

  /** So the malformed count of any datagram is that of its complete frames, and one more exactly if an
      undecodable header follows them; a truncated message is never in it. */
  lemma DatagramMalformed(f: FeedState, bytes: seq<byte>)
    ensures ConsumedDatagram(f, bytes).1.malformed
         == MalformedIn(FrameItems(Frames(bytes))) + if FrontOf(bytes[Framed(bytes)..]).BadHeader? then 1 else 0
  {
    hide Parse, FrontOf, DeliveredAll, MalformedIn, EventsIn, Frames, FrameItems, Framed;
    ParseIsFrames(bytes);
    QuietIsSettled(bytes);
    CountConcat(FrameItems(Frames(bytes)), if Parse(bytes).stopped then [Malformed] else []);
    CountOne(Malformed);
    NothingDelivered(f);
  }

  /** One byte of a message is such a datagram. */
  lemma CutShort(f: FeedState)
    ensures ConsumedDatagram(f, [0]) == (f, ParseResult(0, 0, 0, false))
  {
    hide Parse;
    ParseUnfolds([0]);
  }

  /** A stream run emits what `Parsing.Emitted` says, and keeps its residual. */
  function Streamed(f: FeedState, chunks: seq<seq<byte>>): FeedState
    decreases |chunks|
  {
    if chunks == [] then f else Streamed(Consumed(f, chunks[0]).0, chunks[1..])
  }

  lemma {:induction false} DeliveredConcat(f: FeedState, a: seq<Item>, b: seq<Item>)
    ensures DeliveredAll(f, a + b) == DeliveredAll(DeliveredAll(f, a), b)
  {
    hide Delivered;
    if b == [] {
      assert a + b == a;
    } else {
      var n := |b| - 1;
      assert (a + b)[..|a + b| - 1] == a + b[..n];
      DeliveredConcat(f, a, b[..n]);
    }
  }

  lemma {:induction false} StreamedIsDelivery(f: FeedState, chunks: seq<seq<byte>>)
    ensures var items := Emitted(f.residual, chunks);
      Streamed(f, chunks) == DeliveredAll(f, items).(residual := Left(f.residual, chunks),
                                                     malformed := f.malformed + MalformedIn(items))
    decreases |chunks|
  {
    hide Parse, DeliveredAll, MalformedIn;
    if chunks == [] {
      NothingDelivered(f);
    } else {
      var g := Consumed(f, chunks[0]).0;
      var a, b := Parse(f.residual + chunks[0]).items, Emitted(g.residual, chunks[1..]);
      StreamedIsDelivery(g, chunks[1..]);
      DeliveryKeepsResidual(f, [], a);
      var h := DeliveredAll(f, a);
      DeliveryIgnores(h, g.residual, g.malformed, b);
      DeliveredConcat(f, a, b);
      CountConcat(a, b);
      DeliveryKeepsResidual(h, [], b);
    }
  }

  lemma NothingDelivered(f: FeedState)
    ensures DeliveredAll(f, []) == f && MalformedIn([]) == 0
  {
  }

  lemma {:induction false} DeliveryIgnores(f: FeedState, residual: seq<byte>, malformed: nat, items: seq<Item>)
    ensures DeliveredAll(f.(residual := residual, malformed := malformed), items)
         == DeliveredAll(f, items).(residual := residual, malformed := malformed)
  {
    hide Applied, Observed;
    if items == [] {
    } else {
      DeliveryIgnores(f, residual, malformed, items[..|items| - 1]);
    }
  }

  // ---- The sequence filter ----

  function Numbers(ms: seq<Message>): (r: seq<nat>)
    ensures |r| == |ms|
    ensures forall i :: 0 <= i < |ms| ==> r[i] == ms[i].sequence
  {
    seq(|ms|, i requires 0 <= i < |ms| => ms[i].sequence)
  }

  function Delivery(ms: seq<Message>): FeedState {
    if ms == [] then FRESH_FEED else Delivered(Delivery(ms[..|ms| - 1]), Event(ms[|ms| - 1]))
  }

  function AppliedAll(ms: seq<Message>): BuilderState {
    if ms == [] then EMPTY else Applied(AppliedAll(ms[..|ms| - 1]), ms[|ms| - 1].body)
  }

  /** The messages whose number exceeds every number before it. */
  function Records(ms: seq<Message>): seq<Message> {
    if ms == [] then []
    else
      var (front, last) := (ms[..|ms| - 1], ms[|ms| - 1]);
      if Exceeds(last.sequence, Numbers(front)) then Records(front) + [last] else Records(front)
  }

  ghost predicate Numbered(ms: seq<Message>) {
    forall m :: m in ms ==> m.sequence < MAX_SEQ
  }

  lemma NumbersFront(ms: seq<Message>)
    requires ms != []
    ensures Numbers(ms)[..|ms| - 1] == Numbers(ms[..|ms| - 1]) && Numbers(ms)[|ms| - 1] == ms[|ms| - 1].sequence
  {
  }

  lemma {:induction false} DeliveryTracks(ms: seq<Message>)
    ensures Delivery(ms).tracker == After(Numbers(ms))
  {
    hide Observed, Applied;
    if ms == [] {
    } else {
      NumbersFront(ms);
      DeliveryTracks(ms[..|ms| - 1]);
    }
  }

  lemma NumberedFits(ms: seq<Message>)
    requires Numbered(ms)
    ensures In32Bits(Numbers(ms)) && MAX_SEQ !in Numbers(ms)
  {
    forall i | 0 <= i < |ms| ensures Numbers(ms)[i] < MAX_SEQ {
      assert ms[i] in ms;
    }
  }

  lemma AppliedLast(ms: seq<Message>, m: Message)
    ensures AppliedAll(ms + [m]) == Applied(AppliedAll(ms), m.body)
  {
    assert (ms + [m])[..|ms|] == ms;
  }

  /** While 2^32 - 1 does not occur, the books are built from exactly the strict left-to-right maxima
      of the sequence numbers, whatever else was delivered. */
  lemma {:induction false} BooksFromRecords(ms: seq<Message>)
    requires Numbered(ms)
    ensures Delivery(ms).down == AppliedAll(Records(ms))
  {
    hide Observed, Applied, AppliedAll, Exceeds, Accepts, After;
    if ms != [] {
      var front, last := ms[..|ms| - 1], ms[|ms| - 1];
      assert forall m :: m in front ==> m in ms;
      BooksFromRecords(front);
      DeliveryTracks(front);
      NumberedFits(front);
      AcceptsIffExceeds(Numbers(front), last.sequence);
      ForwardsIffAccepts(After(Numbers(front)), last.sequence);
      AppliedLast(Records(front), last);
    } else {
      NothingApplied();
    }
  }

  lemma NothingApplied()
    ensures AppliedAll([]) == EMPTY
  {
  }

  /** Its number does not exceed those of all of `ms`. */
  predicate Stale(m: Message, ms: seq<Message>) {
    exists k :: 0 <= k < |ms| && m.sequence <= ms[k].sequence
  }

  lemma RecordsStep(ms: seq<Message>, m: Message)
    ensures Records(ms + [m]) == if Exceeds(m.sequence, Numbers(ms)) then Records(ms) + [m] else Records(ms)
  {
    assert (ms + [m])[..|ms|] == ms;
  }

  lemma {:induction false} RecordsSkipStale(a: seq<Message>, stale: Message, b: seq<Message>)
    requires Stale(stale, a)
    ensures Records(a + [stale] + b) == Records(a + b)
  {
    hide Records, Exceeds;
    if b == [] {
      assert a + [stale] + b == a + [stale] && a + b == a;
      RecordsStep(a, stale);
      StaleDoesNotExceed(a, stale);
    } else {
      var n := |b| - 1;
      assert a + [stale] + b == (a + [stale] + b[..n]) + [b[n]] && a + b == (a + b[..n]) + [b[n]];
      RecordsSkipStale(a, stale, b[..n]);
      SameExceeds(a, stale, b[..n], b[n].sequence);
      RecordsStep(a + [stale] + b[..n], b[n]);
      RecordsStep(a + b[..n], b[n]);
    }
  }

  lemma StaleDoesNotExceed(a: seq<Message>, stale: Message)
    requires Stale(stale, a)
    ensures !Exceeds(stale.sequence, Numbers(a))
  {
    var k :| 0 <= k < |a| && stale.sequence <= a[k].sequence;
    assert Numbers(a)[k] == a[k].sequence;
  }

  lemma SameExceeds(a: seq<Message>, stale: Message, b: seq<Message>, s: nat)
    requires Stale(stale, a)
    ensures Exceeds(s, Numbers(a + [stale] + b)) <==> Exceeds(s, Numbers(a + b))
  {
    var x, y := a + [stale] + b, a + b;
    var i :| 0 <= i < |a| && stale.sequence <= a[i].sequence;
    assert y[i] == a[i] && x[i] == a[i] && x[|a|] == stale;
    assert forall k :: 0 <= k < |a| ==> x[k] == y[k];
    assert forall k :: |a| <= k < |y| ==> y[k] == x[k + 1];
    assert forall k :: |a| < k < |x| ==> x[k] == y[k - 1];
  }

  /** Inserting a stale message anywhere leaves every book and every counter of the builder unchanged. */
  lemma StaleIsHarmless(a: seq<Message>, stale: Message, b: seq<Message>)
    requires Numbered(a + b) && Stale(stale, a)
    ensures Delivery(a + [stale] + b).down == Delivery(a + b).down
  {
    hide Delivery, Records;
    var i :| 0 <= i < |a| && stale.sequence <= a[i].sequence;
    assert a[i] in a + b;
    forall m | m in a + [stale] + b ensures m.sequence < MAX_SEQ {
      assert m == stale || m in a + b;
    }
    BooksFromRecords(a + [stale] + b);
    BooksFromRecords(a + b);
    RecordsSkipStale(a, stale, b);
  }

  /** Messages that are all stale with respect to `a` add nothing behind it. */
  lemma {:induction false} StaleTail(a: seq<Message>, b: seq<Message>)
    requires Numbered(a) && forall m :: m in b ==> Stale(m, a)
    ensures Delivery(a + b).down == Delivery(a).down
  {
    hide Delivery, Records, Stale;
    if b == [] {
      assert a + b == a;
    } else {
      assert forall m :: m in b[1..] ==> m in b;
      assert b[0] in b;
      assert a + b == a + [b[0]] + b[1..];
      StaleTail(a, b[1..]);
      StaleNumbers(a, b[1..]);
      StaleIsHarmless(a, b[0], b[1..]);
    }
  }

  lemma StaleNumbers(a: seq<Message>, b: seq<Message>)
    requires Numbered(a) && forall m :: m in b ==> Stale(m, a)
    ensures Numbered(a + b)
  {
    forall m | m in a + b ensures m.sequence < MAX_SEQ {
      if m in b {
        var k :| 0 <= k < |a| && m.sequence <= a[k].sequence;
        assert a[k] in a;
      }
    }
  }

  /** Replaying the whole stream after itself changes no book. */
  lemma ReplayedTwice(ms: seq<Message>)
    requires Numbered(ms)
    ensures Delivery(ms + ms).down == Delivery(ms).down
  {
    forall m | m in ms ensures Stale(m, ms) {
      var k :| 0 <= k < |ms| && ms[k] == m;
    }
    StaleTail(ms, ms);
  }
}
