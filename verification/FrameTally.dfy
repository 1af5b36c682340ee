/** What a buffer amounts to when its frames are consumed one datagram at a time, and how that compares
    with one `consume` of the whole buffer. The concurrent pipeline computes the former
    (include/mdfh/pipeline.hpp:77-124). */
module FrameTallies {
  import opened Protocol
  import opened SequenceTracking
  import opened FlatBook
  import opened BookBuilding
  import opened Parsing
  import opened FeedHandling
  import opened FeedLaws

  /** The handler after some datagrams and the two counters the book thread sums up. */
  datatype Tally = Tally(feed: FeedState, parsed: nat, malformed: nat)

  function TallyOf(frames: seq<seq<byte>>): Tally {
    if frames == [] then Tally(FRESH_FEED, 0, 0)
    else Tallied(TallyOf(frames[..|frames| - 1]), frames[|frames| - 1])
  }

  function Tallied(t: Tally, frame: seq<byte>): Tally {
    var (g, r) := ConsumedDatagram(t.feed, frame);
    Tally(g, t.parsed + r.messages, t.malformed + r.malformed)
  }

  /** One complete frame and nothing else. */
  predicate Complete(x: seq<byte>) {
    HasFrame(x) && FrontOf(x).size == |x|
  }

  /** The frames that fit a pipeline frame. */
  function Short(frames: seq<seq<byte>>): (r: seq<seq<byte>>)
    ensures |r| <= |frames|
  {
    if frames == [] then []
    else if |frames[0]| <= MAX_MESSAGE_SIZE then [frames[0]] + Short(frames[1..])
    else Short(frames[1..])
  }

  /** How many frames ingestion skips. */
  function Skipped(frames: seq<seq<byte>>): nat {
    |frames| - |Short(frames)|
  }

  ghost predicate AllComplete(frames: seq<seq<byte>>) {
    forall x :: x in frames ==> Complete(x)
  }

  lemma {:induction false} FramesAreComplete(buf: seq<byte>)
    ensures AllComplete(Frames(buf))
    decreases |buf|
  {
    hide Parse, FrontOf;
    if HasFrame(buf) {
      FrameAlone(buf);
      FramesAreComplete(buf[FrontOf(buf).size..]);
    }
  }

  lemma {:induction false} ShortIsComplete(frames: seq<seq<byte>>)
    requires AllComplete(frames)
    ensures AllComplete(Short(frames))
  {
    hide Complete;
    if frames == [] {
    } else {
      assert frames[0] in frames && forall x :: x in frames[1..] ==> x in frames;
      ShortIsComplete(frames[1..]);
    }
  }

  lemma {:induction false} FrameItemsConcat(a: seq<seq<byte>>, b: seq<seq<byte>>)
    ensures FrameItems(a + b) == FrameItems(a) + FrameItems(b)
  {
    hide FrontOf;
    if a == [] {
      assert a + b == b;
    } else {
      assert (a + b)[1..] == a[1..] + b;
      FrameItemsConcat(a[1..], b);
    }
  }

  lemma TalliedComplete(t: Tally, x: seq<byte>)
    requires Complete(x)
    ensures var item := ItemOf(FrontOf(x));
      Tallied(t, x) == Tally(Delivered(t.feed, item).(malformed := t.feed.malformed + MalformedIn([item])),
                             t.parsed + EventsIn([item]), t.malformed + MalformedIn([item]))
  {
    hide Parse, FrontOf, Delivered, EventsIn, MalformedIn;
    FrameAlone(x);
    assert x[..|x|] == x;
    Appended(t.feed, [], ItemOf(FrontOf(x)));
    assert [] + [ItemOf(FrontOf(x))] == [ItemOf(FrontOf(x))];
    DeliveryKeepsResidual(t.feed, t.feed.residual, [ItemOf(FrontOf(x))]);
  }

  lemma {:induction false} TallyIsDelivery(frames: seq<seq<byte>>)
    requires AllComplete(frames)
    ensures var items := FrameItems(frames);
      TallyOf(frames) == Tally(DeliveredAll(FRESH_FEED, items).(malformed := MalformedIn(items)),
                               EventsIn(items), MalformedIn(items))
  {
    hide FrontOf, Delivered, DeliveredAll, Complete, FrameItems, EventsIn, MalformedIn, Tallied;
    if frames == [] {
      NoItems();
    } else {
      var n := |frames| - 1;
      var front, x := frames[..n], frames[n];
      var (a, item) := (FrameItems(front), ItemOf(FrontOf(x)));
      assert x in frames && forall y :: y in front ==> y in frames;
      TallyIsDelivery(front);
      TalliedComplete(TallyOf(front), x);
      assert frames == front + [x];
      FrameItemsConcat(front, [x]);
      OneItem(x);
      Appended(FRESH_FEED, a, item);
      CountConcat(a, [item]);
      DeliveryIgnoresOnce(DeliveredAll(FRESH_FEED, a), MalformedIn(a), item);
      DeliveryKeepsResidual(FRESH_FEED, [], a);
    }
  }

  lemma NoItems()
    ensures FrameItems([]) == [] && EventsIn([]) == 0 && MalformedIn([]) == 0 && DeliveredAll(FRESH_FEED, []) == FRESH_FEED
  {
  }

  lemma OneItem(x: seq<byte>)
    ensures FrameItems([x]) == [ItemOf(FrontOf(x))]
  {
    assert [x][1..] == [];
  }

  lemma DeliveryIgnoresOnce(f: FeedState, malformed: nat, item: Item)
    ensures Delivered(f.(malformed := malformed), item) == Delivered(f, item).(malformed := malformed)
  {
    hide Applied, MalformedSeen;
  }

  /** The same handler, with `n` more malformed notices seen by its builder. */
  function Noted(f: FeedState, n: nat): FeedState {
    f.(down := f.down.(stats := f.down.stats.(malformed := f.down.stats.malformed + n)))
  }

  lemma NotedCommutes(f: FeedState, n: nat, item: Item)
    ensures Delivered(Noted(f, n), item) == Noted(Delivered(f, item), n)
  {
    hide Apply, Observed;
  }

  lemma {:induction false} NotedBefore(f: FeedState, n: nat, items: seq<Item>)
    ensures DeliveredAll(Noted(f, n), items) == Noted(DeliveredAll(f, items), n)
  {
    hide Delivered, Noted;
    if items == [] {
    } else {
      var k := |items| - 1;
      NotedBefore(f, n, items[..k]);
      NotedCommutes(DeliveredAll(f, items[..k]), n, items[k]);
    }
  }

  /** A frame longer than the longest message is always malformed. */
  lemma LongFrame(x: seq<byte>)
    requires Complete(x) && |x| > MAX_MESSAGE_SIZE
    ensures ItemOf(FrontOf(x)) == Malformed
  {
    hide FrontOf;
  }

  /** Skipping the long frames loses nothing but their malformed notices. */
  lemma {:induction false} SkippingLoses(f: FeedState, frames: seq<seq<byte>>)
    requires AllComplete(frames)
    ensures var (all, some, n) := (FrameItems(frames), FrameItems(Short(frames)), Skipped(frames));
      && DeliveredAll(f, all) == Noted(DeliveredAll(f, some), n)
      && EventsIn(all) == EventsIn(some) && MalformedIn(all) == MalformedIn(some) + n
    decreases |frames|
  {
    hide FrontOf, Delivered, DeliveredAll, Complete;
    if frames == [] {
    } else {
      var x, rest := frames[0], frames[1..];
      var item := ItemOf(FrontOf(x));
      assert x in frames && forall y :: y in rest ==> y in frames;
      DeliveredFirst(f, item, FrameItems(rest));
      if |x| <= MAX_MESSAGE_SIZE {
        SkippingLoses(Delivered(f, item), rest);
        DeliveredFirst(f, item, FrameItems(Short(rest)));
      } else {
        LongFrame(x);
        SkippingLoses(f, rest);
        MalformedIsNoted(f);
        NotedBefore(f, 1, FrameItems(rest));
      }
    }
  }

  lemma MalformedIsNoted(f: FeedState)
    ensures Delivered(f, Malformed) == Noted(f, 1)
  {
  }

  lemma DeliveredFirst(f: FeedState, item: Item, rest: seq<Item>)
    ensures DeliveredAll(f, [item] + rest) == DeliveredAll(Delivered(f, item), rest)
  {
    hide Delivered, DeliveredAll;
    DeliveredConcat(f, [item], rest);
    Appended(f, [], item);
    assert [] + [item] == [item];
    NothingDelivered(f);
  }

  /** Frame by frame, long frames skipped, is as good as one `consume` of the whole buffer: the same
      books, sequence state, forwards and drops, the same counters but the malformed ones, the same
      number of messages; the malformed counts differ by exactly the skipped frames, and one if the
      walk stopped at an undecodable header. */
  lemma TallyIsConsume(buf: seq<byte>)
    ensures var (t, frames) := (TallyOf(Short(Frames(buf))), Frames(buf));
      var (g, r) := Consumed(FRESH_FEED, buf);
      var more := Skipped(frames) + (if Parse(buf).stopped then 1 else 0);
      && g == Noted(t.feed, more).(residual := g.residual, malformed := t.malformed + more)
      && r.messages == t.parsed && r.malformed == t.malformed + more
  {
    hide Parse, Frames, Short, FrameItems, Delivered, DeliveredAll, EventsIn, MalformedIn, Complete;
    var frames := Frames(buf);
    var items := FrameItems(frames);
    assert [] + buf == buf;
    ParseIsFrames(buf);
    FramesAreComplete(buf);
    ShortIsComplete(frames);
    TallyIsDelivery(Short(frames));
    SkippingLoses(FRESH_FEED, frames);
    DeliveryKeepsResidual(FRESH_FEED, [], FrameItems(Short(frames)));
    if Parse(buf).stopped {
      Appended(FRESH_FEED, items, Malformed);
      MalformedIsNoted(DeliveredAll(FRESH_FEED, items));
    } else {
      assert items + [] == items;
    }
  }
}
