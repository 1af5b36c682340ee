/** Replay of a captured buffer (include/mdfh/replay.hpp, src/replay.cpp): in one bulk `consume`, or
    frame by frame as the timed modes do. Pacing is not modelled, only the order of the frames. */
module Replaying {
  import opened Protocol
  import opened Serialization
  import opened SequenceTracking
  import opened BookBuilding
  import opened Parsing
  import opened FeedHandling
  import opened FeedLaws

  datatype ReplayResult = ReplayResult(messagesParsed: nat, malformed: nat, forwarded: nat, dropped: nat, seqStats: SeqStats)

  /** The handler after a replay, and what the replay returns. */
  function Replayed(f: FeedState, buf: seq<byte>, timed: bool): (FeedState, ReplayResult) {
    var g := if timed then Streamed(f, Frames(buf)) else Consumed(f, buf).0;
    var items := if timed then Emitted(f.residual, Frames(buf)) else Parse(f.residual + buf).items;
    (g, ReplayResult(EventsIn(items), MalformedIn(items), g.forwarded, g.dropped, g.tracker.stats))
  }

  /** Consumed one at a time, complete frames leave no residual and emit one item each. */
  lemma {:induction false} FramesEmit(buf: seq<byte>)
    ensures Emitted([], Frames(buf)) == FrameItems(Frames(buf)) && Left([], Frames(buf)) == []
    decreases |buf|
  {
    hide Parse, FrontOf;
    if HasFrame(buf) {
      var n := FrontOf(buf).size;
      var f := buf[..n];
      FrameAlone(buf);
      FramesEmit(buf[n..]);
      assert [] + f == f && f[|f|..] == [];
      assert Frames(buf)[0] == f && Frames(buf)[1..] == Frames(buf[n..]);
    }
  }

  /** Replay speed does not matter. A driver with no pending bytes reaches the same books, forwards and
      drops the same messages with the same sequence statistics, and parses the same number of
      messages in both modes; the malformed counts differ by exactly one if and only if the walk meets
      an undecodable header. */
  lemma SpeedIndependence(f: FeedState, buf: seq<byte>)
    requires f.residual == []
    ensures var ((bulk, rb), (walk, rw)) := (Replayed(f, buf, false), Replayed(f, buf, true));
      && walk.down.books == bulk.down.books
      && walk.tracker == bulk.tracker
      && rw == rb.(malformed := rw.malformed)
      && walk.down.stats == bulk.down.stats.(malformed := walk.down.stats.malformed)
      && rb.malformed == rw.malformed + (if Parse(buf).stopped then 1 else 0)
      && bulk.down.stats.malformed == walk.down.stats.malformed + (if Parse(buf).stopped then 1 else 0)
  {
    hide Parse, Frames, DeliveredAll, EventsIn, MalformedIn;
    var items := FrameItems(Frames(buf));
    assert [] + buf == buf;
    FramesEmit(buf);
    StreamedIsDelivery(f, Frames(buf));
    ParseIsFrames(buf);
    if Parse(buf).stopped {
      Appended(f, items, Malformed);
    } else {
      assert items + [] == items;
    }
  }

  /** The messages among the items, in order. */
  function Heard(items: seq<Item>): seq<Message> {
    if items == [] then []
    else Heard(items[..|items| - 1]) + if items[|items| - 1].Event? then [items[|items| - 1].message] else []
  }

  /** The same but for pending bytes and the malformed counters. */
  ghost predicate Alike(f: FeedState, g: FeedState, malformed: nat) {
    && f.tracker == g.tracker && f.forwarded == g.forwarded && f.dropped == g.dropped
    && f.down == g.down.(stats := g.down.stats.(malformed := malformed))
  }

  lemma AlikeDelivered(f: FeedState, g: FeedState, malformed: nat, x: Item)
    requires Alike(f, g, malformed)
    ensures if x.Event? then Alike(Delivered(f, x), Delivered(g, x), malformed)
            else Alike(Delivered(f, x), g, malformed + 1)
  {
    hide Observed;
  }

  /** Notices among the messages move the malformed counter and nothing else. */
  lemma {:induction false} DeliveryHears(items: seq<Item>)
    ensures Alike(DeliveredAll(FRESH_FEED, items), Delivery(Heard(items)), MalformedIn(items))
    ensures |Heard(items)| == EventsIn(items)
  {
    hide Delivered, Alike;
    if items == [] {
      FreshAlike();
    } else {
      var n := |items| - 1;
      var front, x := items[..n], items[n];
      DeliveryHears(front);
      assert items == front + [x];
      Appended(FRESH_FEED, front, x);
      AlikeDelivered(DeliveredAll(FRESH_FEED, front), Delivery(Heard(front)), MalformedIn(front), x);
      if x.Event? {
        assert Heard(items) == Heard(front) + [x.message];
        assert Heard(items)[..|Heard(front)|] == Heard(front);
      } else {
        assert Heard(items) == Heard(front) + [] == Heard(front);
      }
    }
  }

  lemma FreshAlike()
    ensures Alike(FRESH_FEED, FRESH_FEED, 0)
  {
  }

  /** What a fresh handler forwards and drops, by the sequence numbers alone. */
  lemma {:induction false} ForwardedByNumbers(ms: seq<Message>)
    ensures var f := Delivery(ms); f.forwarded == |Accepted(Numbers(ms))| && f.forwarded + f.dropped == |ms|
  {
    hide Observed, Applied, Accepts, Forwards, Accepted;
    if ms == [] {
      NoneYet();
      assert Numbers([]) == [];
    } else {
      var front, last := ms[..|ms| - 1], ms[|ms| - 1];
      ForwardedByNumbers(front);
      DeliveryTracks(front);
      NumbersFront(ms);
      RunStep(Numbers(ms));
      ForwardsIffAccepts(After(Numbers(front)), last.sequence);
    }
  }

  /** All messages parsed, those with an accepted number forwarded, and the others dropped. */
  predicate ReturnsFor(r: ReplayResult, ms: seq<Message>) {
    && r.messagesParsed == |ms| && r.forwarded == |Accepted(Numbers(ms))| && r.forwarded + r.dropped == |ms|
    && r.seqStats == After(Numbers(ms)).stats
  }

  /** What a replay into a fresh handler returns, in either mode, said with the messages of the complete
      frames: all are parsed; those with an accepted number are forwarded, the others dropped; the
      statistics are those of the run of numbers; and the malformed count is that of the frames, with
      one more in bulk when an undecodable header ends them. Unless 2^32 - 1 occurs, the books are those
      of the strict left-to-right maxima. */
  lemma ReplayCounts(buf: seq<byte>, timed: bool)
    ensures var ((g, r), items) := (Replayed(FRESH_FEED, buf, timed), FrameItems(Frames(buf)));
      && ReturnsFor(r, Heard(items))
      && r.malformed == MalformedIn(items) + (if Parse(buf).stopped && !timed then 1 else 0)
      && (Numbered(Heard(items)) ==>
            g.down.books == AppliedAll(Records(Heard(items))).books && r.forwarded == |Records(Heard(items))|)
  {
    hide Parse, Frames, DeliveredAll, Delivery, EventsIn, MalformedIn, FrameItems, After, Accepted, Records, AppliedAll;
    var items := FrameItems(Frames(buf));
    var ms := Heard(items);
    DeliveryHears(items);
    ForwardedByNumbers(ms);
    DeliveryTracks(ms);
    SpeedIndependence(FRESH_FEED, buf);
    FramesEmit(buf);
    StreamedIsDelivery(FRESH_FEED, Frames(buf));
    if Numbered(ms) {
      BooksFromRecords(ms);
      RecordsAccepted(ms);
    }
  }

  /** Without wraparound the accepted messages are the records. */
  lemma {:induction false} RecordsAccepted(ms: seq<Message>)
    requires Numbered(ms)
    ensures |Records(ms)| == |Accepted(Numbers(ms))|
  {
    hide Accepts, After, Exceeds, Accepted;
    if ms == [] {
      NoneYet();
      assert Numbers([]) == [];
    } else {
      var front, last := ms[..|ms| - 1], ms[|ms| - 1];
      assert forall m :: m in front ==> m in ms;
      RecordsAccepted(front);
      NumberedFits(front);
      NumbersFront(ms);
      RunStep(Numbers(ms));
      AcceptsIffExceeds(Numbers(front), last.sequence);
    }
  }

  class ReplayDriver {
    const builder: BookBuilder
    const feed: FeedHandler

    ghost predicate Valid()
      reads this, feed, builder, builder.manager, builder.manager.owned
    {
      feed.down == builder && feed.Valid()
    }

    constructor (builder: BookBuilder)
      requires builder.Valid()
      ensures Valid() && this.builder == builder && fresh(feed) && fresh(feed.tracker)
      ensures feed.State() == FRESH_FEED.(down := builder.State())
    {
      this.builder := builder;
      feed := new FeedHandler(builder);
    }

    method Replay(messages: seq<byte>, timed: bool) returns (res: ReplayResult)
      requires Valid()
      modifies feed, feed.tracker, builder, builder.manager, builder.manager.owned
      ensures Valid() && fresh(builder.manager.owned - old(builder.manager.owned))
      ensures (feed.State(), res) == Replayed(old(feed.State()), messages, timed)
    {
      hide BookBuilder.Valid, Parse, DeliveredAll, EventsIn, MalformedIn, Frames, Emitted, Streamed;
      var parsed, malformed := 0, 0;
      if !timed {
        var r := feed.Consume(messages);
        parsed, malformed := r.messages, r.malformed;
      } else {
        parsed, malformed := Walk(messages);
      }
      res := ReplayResult(parsed, malformed, feed.forwarded, feed.dropped, feed.tracker.stats);
    }

    /** The frame-by-frame path, without the sleeps. */
    method Walk(messages: seq<byte>) returns (parsed: nat, malformed: nat)
      requires Valid()
      modifies feed, feed.tracker, builder, builder.manager, builder.manager.owned
      ensures Valid() && fresh(builder.manager.owned - old(builder.manager.owned))
      ensures feed.State() == Streamed(old(feed.State()), Frames(messages))
      ensures parsed == EventsIn(Emitted(old(feed.residual), Frames(messages)))
      ensures malformed == MalformedIn(Emitted(old(feed.residual), Frames(messages)))
    {
      hide BookBuilder.Valid, Parse, FrontOf, Consumed, DecodeHeader, EventsIn, MalformedIn, Frames, Emitted, Streamed;
      parsed, malformed := 0, 0;
      var off := 0;
      assert messages[0..] == messages;
      while off + HEADER_WIRE_SIZE <= |messages|
        invariant off <= |messages|
        invariant Valid() && fresh(builder.manager.owned - old(builder.manager.owned))
        invariant Streamed(feed.State(), Frames(messages[off..])) == Streamed(old(feed.State()), Frames(messages))
        invariant parsed + EventsIn(Emitted(feed.residual, Frames(messages[off..])))
               == EventsIn(Emitted(old(feed.residual), Frames(messages)))
        invariant malformed + MalformedIn(Emitted(feed.residual, Frames(messages[off..])))
               == MalformedIn(Emitted(old(feed.residual), Frames(messages)))
        decreases |messages| - off
      {
        ghost var rest := messages[off..];
        HeaderAt(rest);
        assert rest[..HEADER_WIRE_SIZE] == messages[off..off + HEADER_WIRE_SIZE];
        FramesUnfold(feed.State(), rest);
        var d := ReadHeader(messages[off..off + HEADER_WIRE_SIZE]);
        if d.None? { break; }
        var frame := HEADER_WIRE_SIZE + d.value.bodySize;
        if off + frame > |messages| { break; }
        assert messages[off..off + frame] == rest[..frame] && rest[frame..] == messages[off + frame..];
        var r := feed.Consume(messages[off..off + frame]);
        parsed := parsed + r.messages;
        malformed := malformed + r.malformed;
        off := off + frame;
      }
      HeaderAtEnd(messages[off..]);
      FramesUnfold(feed.State(), messages[off..]);
    }
  }

  lemma HeaderAtEnd(rest: seq<byte>)
    ensures |rest| < HEADER_WIRE_SIZE ==> !HasFrame(rest)
  {
  }

  /** One step of the walk, for the handler and for the two sums. */
  lemma FramesUnfold(f: FeedState, rest: seq<byte>)
    ensures !HasFrame(rest) ==>
      && Streamed(f, Frames(rest)) == f
      && EventsIn(Emitted(f.residual, Frames(rest))) == 0 && MalformedIn(Emitted(f.residual, Frames(rest))) == 0
    ensures HasFrame(rest) ==>
      var n := FrontOf(rest).size;
      var (g, r) := Consumed(f, rest[..n]);
      && Streamed(f, Frames(rest)) == Streamed(g, Frames(rest[n..]))
      && EventsIn(Emitted(f.residual, Frames(rest))) == r.messages + EventsIn(Emitted(g.residual, Frames(rest[n..])))
      && MalformedIn(Emitted(f.residual, Frames(rest))) == r.malformed + MalformedIn(Emitted(g.residual, Frames(rest[n..])))
  {
    hide Parse, FrontOf, DeliveredAll;
    if HasFrame(rest) {
      var n := FrontOf(rest).size;
      var x, fs := rest[..n], Frames(rest);
      assert fs[0] == x && fs[1..] == Frames(rest[n..]);
      CountConcat(Parse(f.residual + x).items, Emitted(Residual(f.residual, x), fs[1..]));
    }
  }
}
