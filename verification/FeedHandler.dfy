/** Reassembly, sequence filtering and delivery (include/mdfh/feed_handler.hpp), with the parse loop of
    include/mdfh/parser.hpp instantiated with it as the handler. */
module FeedHandling {
  import opened Protocol
  import opened Serialization
  import opened SequenceTracking
  import opened FlatBook
  import opened BookBuilding
  import opened Parsing

  datatype ParseResult = ParseResult(bytesConsumed: nat, messages: nat, malformed: nat, needsMore: bool)

  /** Everything a feed handler and its builder hold. */
  datatype FeedState = FeedState(residual: seq<byte>, tracker: SeqState, forwarded: nat, dropped: nat,
                                 malformed: nat, down: BuilderState)

  const FRESH_FEED: FeedState := FeedState([], FRESH, 0, 0, 0, EMPTY)

  function ResultOf(p: Parsed): ParseResult {
    ParseResult(p.consumed, EventsIn(p.items), MalformedIn(p.items), p.needsMore)
  }

  /** One parser callback. */
  function Delivered(f: FeedState, x: Item): FeedState {
    match x
    case Malformed => f.(down := MalformedSeen(f.down))
    case Event(m) =>
      var (tracker, status) := Observed(f.tracker, m.sequence);
      if Forwards(status) then f.(tracker := tracker, forwarded := f.forwarded + 1, down := Applied(f.down, m.body))
      else f.(tracker := tracker, dropped := f.dropped + 1)
  }

  function DeliveredAll(f: FeedState, items: seq<Item>): FeedState {
    if items == [] then f
    else Delivered(DeliveredAll(f, items[..|items| - 1]), items[|items| - 1])
  }

  /** The stream entry point. */
  function Consumed(f: FeedState, bytes: seq<byte>): (FeedState, ParseResult) {
    var buf := f.residual + bytes;
    var p := Parse(buf);
    var g := DeliveredAll(f, p.items);
    (g.(residual := buf[p.consumed..], malformed := g.malformed + MalformedIn(p.items)), ResultOf(p))
  }

  /** The datagram entry point: the residual is neither used nor changed. */
  function ConsumedDatagram(f: FeedState, bytes: seq<byte>): (FeedState, ParseResult) {
    var p := Parse(bytes);
    var g := DeliveredAll(f, p.items);
    (g.(malformed := g.malformed + MalformedIn(p.items)), ResultOf(p))
  }

  class FeedHandler {
    const down: BookBuilder
    const tracker: SequenceTracker
    var residual: seq<byte>
    var forwarded: nat
    var dropped: nat
    var malformed: nat

    ghost predicate Valid()
      reads this, down, down.manager, down.manager.owned
    {
      down.Valid()
    }

    ghost function State(): FeedState
      reads this, tracker, down, down.manager
    {
      FeedState(residual, tracker.State(), forwarded, dropped, malformed, down.State())
    }

    constructor (down: BookBuilder)
      requires down.Valid()
      ensures Valid() && this.down == down && fresh(tracker)
      ensures State() == FRESH_FEED.(down := down.State())
    {
      this.down := down;
      tracker := new SequenceTracker();
      residual, forwarded, dropped, malformed := [], 0, 0, 0;
    }

    method Accept(s: nat) returns (ok: bool)
      modifies this`forwarded, this`dropped, tracker
      ensures var (t, status) := Observed(old(tracker.State()), s);
        && tracker.State() == t && (ok <==> Forwards(status))
        && forwarded == old(forwarded) + (if ok then 1 else 0)
        && dropped == old(dropped) + (if ok then 0 else 1)
    {
      var status := tracker.Observe(s);
      ok := status == InOrder || status == Gap;
      if ok { forwarded := forwarded + 1; } else { dropped := dropped + 1; }
    }

    /** The six typed callbacks: forwards the event if its number is accepted. */
    method OnEvent(m: Message)
      requires Valid()
      modifies this`forwarded, this`dropped, tracker, down, down.manager, down.manager.owned
      ensures Valid() && State() == Delivered(old(State()), Event(m))
      ensures fresh(down.manager.owned - old(down.manager.owned))
    {
      hide BookBuilder.Valid, Applied, Observed;
      var ok := Accept(m.sequence);
      if ok {
        match m.body
        case AddOrder(_, _, _, _, _) => down.OnAddOrder(m.body);
        case CancelOrder(_, _) => down.OnCancelOrder(m.body);
        case ModifyOrder(_, _, _, _) => down.OnModifyOrder(m.body);
        case Trade(_, _, _, _, _) => down.OnTrade(m.body);
        case BookSnapshot(_, _, _, _, _) => down.OnSnapshot(m.body);
        case Heartbeat => down.OnHeartbeat();
      }
    }

    method OnMalformed()
      requires Valid()
      modifies down`stats
      ensures Valid() && State() == Delivered(old(State()), Malformed)
    {
      hide BookBuilder.Valid;
      down.OnMalformed();
    }

    /** Decodes the body of a frame whose header agrees with its type and hands the message on. */
    method Dispatch(frame: seq<byte>, h: Header)
      requires Valid() && DecodeHeader(frame[..Min(|frame|, HEADER_WIRE_SIZE)]) == Some(h)
      requires |frame| == HEADER_WIRE_SIZE + h.bodySize
      requires h.bodySize == BodySizeFor(h.msgType) && h.version == PROTOCOL_VERSION
      modifies this`forwarded, this`dropped, tracker, down, down.manager, down.manager.owned
      ensures Valid() && State() == Delivered(old(State()), ItemOf(FrontOf(frame))) && FrontOf(frame).Whole?
      ensures fresh(down.manager.owned - old(down.manager.owned))
    {
      hide BookBuilder.Valid, Delivered, DecodeHeader, DecodeBody;
      var bytes := frame[HEADER_WIRE_SIZE..];
      var body := ReadBody(h.msgType, bytes);
      assert bytes[..h.bodySize] == bytes == frame[HEADER_WIRE_SIZE..HEADER_WIRE_SIZE + h.bodySize];
      OnEvent(Message(h.sequence, h.timestamp, body.value));
    }

    /** `BinaryParser<FeedHandler>::parse`. */
    method ParseBuffer(buf: seq<byte>) returns (r: ParseResult)
      requires Valid()
      modifies this`forwarded, this`dropped, tracker, down, down.manager, down.manager.owned
      ensures Valid() && fresh(down.manager.owned - old(down.manager.owned))
      ensures State() == DeliveredAll(old(State()), Parse(buf).items) && r == ResultOf(Parse(buf))
    {
      hide BookBuilder.Valid, Delivered, DeliveredAll, Parse, DecodeHeader, FrontOf, EventsIn, MalformedIn;
      r := ParseResult(0, 0, 0, false);
      ghost var walk := Walk(0, []);
      WalkStarts(old(State()), buf);
      while r.bytesConsumed + HEADER_WIRE_SIZE <= |buf|
        invariant Valid() && fresh(down.manager.owned - old(down.manager.owned))
        invariant WalkOk(walk, old(State()), buf, State(), r)
        decreases |buf| - r.bytesConsumed
      {
        ghost var before := State();
        var off := r.bytesConsumed;
        ghost var rest := buf[off..];
        var d := ReadHeader(buf[off..off + HEADER_WIRE_SIZE]);
        HeaderAt(rest);
        assert rest[..HEADER_WIRE_SIZE] == buf[off..off + HEADER_WIRE_SIZE];
        if d.None? {
          OnMalformed();
          WalkStops(walk, old(State()), buf, before, r);
          r := ParseResult(off + HEADER_WIRE_SIZE, r.messages, r.malformed + 1, false);
          return;
        }
        var h := d.value;
        var frame := HEADER_WIRE_SIZE + h.bodySize;
        if off + frame > |buf| {
          WalkWaits(walk, old(State()), buf, before, r);
          r := r.(needsMore := true);
          return;
        }
        ghost var x := rest[..frame];
        FrontLocal(rest);
        assert x == buf[off..off + frame] && x[..HEADER_WIRE_SIZE] == rest[..HEADER_WIRE_SIZE];
        if h.bodySize != BodySizeFor(h.msgType) || h.version != PROTOCOL_VERSION {
          OnMalformed();
          WalkGoesOn(walk, old(State()), buf, before, r);
          r := r.(malformed := r.malformed + 1, bytesConsumed := off + frame);
        } else {
          Dispatch(buf[off..off + frame], h);
          WalkGoesOn(walk, old(State()), buf, before, r);
          r := r.(messages := r.messages + 1, bytesConsumed := off + frame);
        }
        walk := Walk(off + frame, walk.done + [ItemOf(FrontOf(rest))]);
      }
      ShortFront(buf[walk.off..]);
      WalkWaits(walk, old(State()), buf, State(), r);
    }

    method Consume(bytes: seq<byte>) returns (r: ParseResult)
      requires Valid()
      modifies this, tracker, down, down.manager, down.manager.owned
      ensures Valid() && fresh(down.manager.owned - old(down.manager.owned))
      ensures (State(), r) == Consumed(old(State()), bytes)
    {
      hide BookBuilder.Valid, DeliveredAll, Parse;
      if residual == [] {
        assert residual + bytes == bytes;
        r := ParseBuffer(bytes);
        if r.bytesConsumed < |bytes| {
          residual := bytes[r.bytesConsumed..];
        }
        assert residual == bytes[r.bytesConsumed..];
        malformed := malformed + r.malformed;
        return;
      }
      residual := residual + bytes;
      DeliveryKeepsResidual(old(State()), old(residual) + bytes, Parse(residual).items);
      r := ParseBuffer(residual);
      residual := residual[r.bytesConsumed..];
      malformed := malformed + r.malformed;
    }

    method ConsumeDatagram(bytes: seq<byte>) returns (r: ParseResult)
      requires Valid()
      modifies this`forwarded, this`dropped, this`malformed, tracker, down, down.manager, down.manager.owned
      ensures Valid() && fresh(down.manager.owned - old(down.manager.owned))
      ensures (State(), r) == ConsumedDatagram(old(State()), bytes)
    {
      hide BookBuilder.Valid, DeliveredAll, Parse;
      r := ParseBuffer(bytes);
      malformed := malformed + r.malformed;
    }
  }

  // ---- The walk of `ParseBuffer` ----

  /** Where the walk stands and what it has dispatched. */
  datatype Walk = Walk(off: nat, done: seq<Item>)

  ghost predicate WalkOk(w: Walk, start: FeedState, buf: seq<byte>, now: FeedState, r: ParseResult) {
    && w.off == r.bytesConsumed <= |buf| && !r.needsMore
    && now == DeliveredAll(start, w.done)
    && r.messages == EventsIn(w.done) && r.malformed == MalformedIn(w.done)
    && Parse(buf) == Ahead(w.off, w.done, Parse(buf[w.off..]))
  }

  lemma WalkStarts(start: FeedState, buf: seq<byte>)
    ensures WalkOk(Walk(0, []), start, buf, start, ParseResult(0, 0, 0, false))
  {
    hide Parse;
    assert buf[0..] == buf && [] + Parse(buf).items == Parse(buf).items;
  }

  lemma ShortFront(rest: seq<byte>)
    requires |rest| < HEADER_WIRE_SIZE
    ensures FrontOf(rest) == TooShort
  {
  }

  /** The header decoding the parser does decides what stands in front. */
  lemma HeaderAt(rest: seq<byte>)
    requires |rest| >= HEADER_WIRE_SIZE
    ensures var (f, d) := (FrontOf(rest), DecodeHeader(rest[..HEADER_WIRE_SIZE]));
      && (f.BadHeader? <==> d.None?)
      && (d.Some? ==>
           var (h, size) := (d.value, HEADER_WIRE_SIZE + d.value.bodySize);
           && (f.Partial? <==> size > |rest|)
           && (size <= |rest| ==>
                if h.bodySize != BodySizeFor(h.msgType) || h.version != PROTOCOL_VERSION
                then f == BadFrame(size) else f.Whole? && f.size == size))
  {
  }

  lemma WalkStops(w: Walk, start: FeedState, buf: seq<byte>, now: FeedState, r: ParseResult)
    requires WalkOk(w, start, buf, now, r) && FrontOf(buf[w.off..]).BadHeader?
    ensures Delivered(now, Malformed) == DeliveredAll(start, Parse(buf).items)
    ensures ResultOf(Parse(buf)) == ParseResult(r.bytesConsumed + HEADER_WIRE_SIZE, r.messages, r.malformed + 1, false)
  {
    hide Parse, FrontOf, Delivered, DeliveredAll, EventsIn, MalformedIn;
    ParseUnfolds(buf[w.off..]);
    Appended(start, w.done, Malformed);
    assert Parse(buf) == Ahead(w.off, w.done, Parsed(HEADER_WIRE_SIZE, [Malformed], false, true));
  }

  lemma WalkWaits(w: Walk, start: FeedState, buf: seq<byte>, now: FeedState, r: ParseResult)
    requires WalkOk(w, start, buf, now, r) && Waits(buf[w.off..])
    ensures now == DeliveredAll(start, Parse(buf).items)
    ensures ResultOf(Parse(buf)) == r.(needsMore := FrontOf(buf[w.off..]).Partial?)
  {
    hide Parse, FrontOf, Delivered, DeliveredAll, EventsIn, MalformedIn;
    ParseUnfolds(buf[w.off..]);
    assert w.done + [] == w.done;
  }

  lemma WalkGoesOn(w: Walk, start: FeedState, buf: seq<byte>, now: FeedState, r: ParseResult)
    requires WalkOk(w, start, buf, now, r) && HasFrame(buf[w.off..])
    ensures var f := FrontOf(buf[w.off..]);
      var r' := ParseResult(w.off + f.size, r.messages + (if f.Whole? then 1 else 0),
                            r.malformed + (if f.Whole? then 0 else 1), false);
      WalkOk(Walk(w.off + f.size, w.done + [ItemOf(f)]), start, buf, Delivered(now, ItemOf(f)), r')
  {
    hide Parse, FrontOf, Delivered, DeliveredAll, EventsIn, MalformedIn;
    var rest := buf[w.off..];
    var f := FrontOf(rest);
    ParseUnfolds(rest);
    Appended(start, w.done, ItemOf(f));
    assert rest[f.size..] == buf[w.off + f.size..];
    var q := Parse(rest[f.size..]);
    assert w.done + ([ItemOf(f)] + q.items) == (w.done + [ItemOf(f)]) + q.items;
  }

  /** Delivery neither reads nor writes the residual and the malformed counter. */
  lemma {:induction false} DeliveryKeepsResidual(f: FeedState, residual: seq<byte>, items: seq<Item>)
    ensures DeliveredAll(f.(residual := residual), items) == DeliveredAll(f, items).(residual := residual)
    ensures DeliveredAll(f, items).residual == f.residual && DeliveredAll(f, items).malformed == f.malformed
  {
    hide Applied, Observed;
    if items == [] {
    } else {
      DeliveryKeepsResidual(f, residual, items[..|items| - 1]);
    }
  }

  /** The outcome of a walk that has dispatched `done` before `off` and still has `q` to come. */
  function Ahead(off: nat, done: seq<Item>, q: Parsed): Parsed {
    Parsed(off + q.consumed, done + q.items, q.needsMore, q.stopped)
  }

  lemma Appended(f: FeedState, done: seq<Item>, x: Item)
    ensures DeliveredAll(f, done + [x]) == Delivered(DeliveredAll(f, done), x)
    ensures EventsIn(done + [x]) == EventsIn(done) + (if x.Event? then 1 else 0)
    ensures MalformedIn(done + [x]) == MalformedIn(done) + (if x.Malformed? then 1 else 0)
  {
    assert (done + [x])[..|done|] == done;
    CountConcat(done, [x]);
    CountOne(x);
  }
}
