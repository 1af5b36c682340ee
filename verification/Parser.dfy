/** What one call of the streaming parser does to a buffer (include/mdfh/parser.hpp:39-117), and the
    laws of stream reassembly (include/mdfh/feed_handler.hpp:34-52): what survives arbitrary chunking. */
module Parsing {
  import opened Protocol
  import opened ByteOrder
  import opened Serialization

  /** What stands at the front of a buffer. */
  datatype Front =
    | TooShort                              // fewer bytes than a header
    | BadHeader                             // the type byte is not one of the six
    | Partial                               // the declared frame has not fully arrived
    | BadFrame(size: nat)                   // body size or version disagrees with the type
    | Whole(size: nat, message: Message)

  /** What the parser hands to its handler: a typed message or a malformed notice. */
  datatype Item = Event(message: Message) | Malformed

  /** `stopped` says that the walk met an undecodable header. */
  datatype Parsed = Parsed(consumed: nat, items: seq<Item>, needsMore: bool, stopped: bool)

  function FrontOf(buf: seq<byte>): (r: Front)
    ensures r.BadHeader? ==> |buf| >= HEADER_WIRE_SIZE
    ensures r.BadFrame? || r.Whole? ==> HEADER_WIRE_SIZE <= r.size <= |buf|
    ensures r.Whole? ==> r.size == FrameSize(r.message.body)
  {
    if |buf| < HEADER_WIRE_SIZE then TooShort
    else
      var d := DecodeHeader(buf[..HEADER_WIRE_SIZE]);
      if d.None? then BadHeader
      else
        var h := d.value;
        var size := HEADER_WIRE_SIZE + h.bodySize;
        if size > |buf| then Partial
        else if h.bodySize != BodySizeFor(h.msgType) || h.version != PROTOCOL_VERSION then BadFrame(size)
        else Whole(size, Message(h.sequence, h.timestamp, DecodeBody(h.msgType, buf[HEADER_WIRE_SIZE..size])))
  }

  /** No complete frame and no undecodable header: the parser would wait. */
  predicate Waits(buf: seq<byte>) {
    FrontOf(buf).TooShort? || FrontOf(buf).Partial?
  }

  predicate HasFrame(buf: seq<byte>) {
    FrontOf(buf).BadFrame? || FrontOf(buf).Whole?
  }

  function ItemOf(f: Front): Item {
    if f.Whole? then Event(f.message) else Malformed
  }

  function Before(size: nat, item: Item, p: Parsed): Parsed {
    p.(consumed := size + p.consumed, items := [item] + p.items)
  }

  function Parse(buf: seq<byte>): (p: Parsed)
    ensures p.consumed <= |buf|
    decreases |buf|
  {
    match FrontOf(buf)
    case TooShort => Parsed(0, [], false, false)
    case Partial => Parsed(0, [], true, false)
    case BadHeader => Parsed(HEADER_WIRE_SIZE, [Malformed], false, true)
    case BadFrame(n) => Before(n, Malformed, Parse(buf[n..]))
    case Whole(n, m) => Before(n, Event(m), Parse(buf[n..]))
  }

  /** The reference decoding of a whole buffer: like `Parse`, but it skips 16 bytes at each
      undecodable header and goes on. */
  function FullDecode(buf: seq<byte>): seq<Item>
    decreases |buf|
  {
    match FrontOf(buf)
    case TooShort => []
    case Partial => []
    case BadHeader => [Malformed] + FullDecode(buf[HEADER_WIRE_SIZE..])
    case BadFrame(n) => [Malformed] + FullDecode(buf[n..])
    case Whole(n, m) => [Event(m)] + FullDecode(buf[n..])
  }

  lemma ParseUnfolds(buf: seq<byte>)
    ensures var f := FrontOf(buf);
      Parse(buf) == if f.TooShort? || f.Partial? then Parsed(0, [], f.Partial?, false)
                    else if f.BadHeader? then Parsed(HEADER_WIRE_SIZE, [Malformed], false, true)
                    else Before(f.size, ItemOf(f), Parse(buf[f.size..]))
  {
  }

  lemma DecodeUnfolds(buf: seq<byte>)
    ensures var f := FrontOf(buf);
      FullDecode(buf) == if f.TooShort? || f.Partial? then []
                         else if f.BadHeader? then [Malformed] + FullDecode(buf[HEADER_WIRE_SIZE..])
                         else [ItemOf(f)] + FullDecode(buf[f.size..])
  {
  }

  /** What has fully arrived does not change when more bytes follow. */
  lemma FrontStable(a: seq<byte>, b: seq<byte>)
    requires !Waits(a)
    ensures FrontOf(a + b) == FrontOf(a)
  {
    hide DecodeHeader, DecodeBody;
    assert (a + b)[..HEADER_WIRE_SIZE] == a[..HEADER_WIRE_SIZE];
    var d := DecodeHeader(a[..HEADER_WIRE_SIZE]);
    if d.Some? {
      var size := HEADER_WIRE_SIZE + d.value.bodySize;
      assert size <= |a|;
      assert (a + b)[HEADER_WIRE_SIZE..size] == a[HEADER_WIRE_SIZE..size];
    }
  }

  /** Nor does it depend on the bytes behind it. */
  lemma FrontLocal(a: seq<byte>)
    requires !Waits(a)
    ensures var n := if FrontOf(a).BadHeader? then HEADER_WIRE_SIZE else FrontOf(a).size;
      FrontOf(a[..n]) == FrontOf(a)
  {
    hide DecodeHeader, DecodeBody;
    var n := if FrontOf(a).BadHeader? then HEADER_WIRE_SIZE else FrontOf(a).size;
    assert a[..n][..HEADER_WIRE_SIZE] == a[..HEADER_WIRE_SIZE];
    assert n > HEADER_WIRE_SIZE ==> a[..n][HEADER_WIRE_SIZE..n] == a[HEADER_WIRE_SIZE..n];
  }

  /** The parser leaves bytes it waits on, unless it stopped at an undecodable header. */
  lemma {:induction false} Leftover(a: seq<byte>)
    ensures !Parse(a).stopped ==> Waits(a[Parse(a).consumed..])
    ensures Parse(a).needsMore <==> !Parse(a).stopped && FrontOf(a[Parse(a).consumed..]).Partial?
    decreases |a|
  {
    hide Parse, FrontOf;
    ParseUnfolds(a);
    var f := FrontOf(a);
    if HasFrame(a) {
      Leftover(a[f.size..]);
      var c := Parse(a[f.size..]).consumed;
      assert a[f.size..][c..] == a[f.size + c..];
    } else {
      assert a[0..] == a;
    }
  }

  // ---- One buffer in two pieces ----

  lemma Regroup(a: seq<Item>, b: seq<Item>, c: seq<Item>)
    ensures a + (b + c) == (a + b) + c
  {
  }

  /** Parsing a prefix first and its leftover with the rest afterwards loses and invents nothing. */
  lemma {:induction false} DecodeSplit(a: seq<byte>, b: seq<byte>)
    ensures FullDecode(a + b) == Parse(a).items + FullDecode(a[Parse(a).consumed..] + b)
    decreases |a|
  {
    hide Parse, FrontOf, FullDecode;
    ParseUnfolds(a);
    var f := FrontOf(a);
    if Waits(a) {
      assert a[0..] == a;
    } else if f.BadHeader? {
      FrontStable(a, b);
      DecodeUnfolds(a + b);
      assert (a + b)[HEADER_WIRE_SIZE..] == a[HEADER_WIRE_SIZE..] + b;
    } else {
      var n := f.size;
      FrontStable(a, b);
      DecodeUnfolds(a + b);
      DecodeSplit(a[n..], b);
      var p := Parse(a[n..]);
      assert (a + b)[n..] == a[n..] + b && a[n..][p.consumed..] == a[n + p.consumed..];
      Regroup([ItemOf(f)], p.items, FullDecode(a[n..][p.consumed..] + b));
    }
  }

  /** The same for the parser itself, as long as the prefix held no undecodable header. */
  lemma {:induction false} ParseSplit(a: seq<byte>, b: seq<byte>)
    ensures var (p, q) := (Parse(a), Parse(a[Parse(a).consumed..] + b));
      Parse(a + b) == if p.stopped then p
                      else Parsed(p.consumed + q.consumed, p.items + q.items, q.needsMore, q.stopped)
    decreases |a|
  {
    hide Parse, FrontOf;
    ParseUnfolds(a);
    var f := FrontOf(a);
    if Waits(a) {
      assert a[0..] == a;
    } else {
      FrontStable(a, b);
      ParseUnfolds(a + b);
      if HasFrame(a) {
        var n := f.size;
        assert (a + b)[n..] == a[n..] + b;
        ParseSplit(a[n..], b);
        var c := Parse(a[n..]).consumed;
        assert a[n..][c..] == a[n + c..];
      }
    }
  }

  /** A walk that stopped does not depend on what follows the undecodable header. */
  lemma {:induction false} StoppedPrefix(a: seq<byte>)
    requires Parse(a).stopped
    ensures Parse(a[..Parse(a).consumed]) == Parse(a)
    decreases |a|
  {
    hide Parse, FrontOf;
    ParseUnfolds(a);
    var f := FrontOf(a);
    var c := Parse(a).consumed;
    FrontLocal(a);
    if HasFrame(a) {
      StoppedPrefix(a[f.size..]);
      assert a[..c][f.size..] == a[f.size..][..c - f.size];
      assert a[..c] == a[..f.size] + a[f.size..c];
      FrontStable(a[..f.size], a[f.size..c]);
    }
    ParseUnfolds(a[..c]);
  }

  // ---- Chunked streams ----

  function Concat(chunks: seq<seq<byte>>): seq<byte> {
    if chunks == [] then [] else chunks[0] + Concat(chunks[1..])
  }

  /** What a residual becomes when a chunk is consumed. */
  function Residual(r: seq<byte>, chunk: seq<byte>): seq<byte> {
    (r + chunk)[Parse(r + chunk).consumed..]
  }

  /** All items emitted while consuming the chunks one by one. */
  function Emitted(r: seq<byte>, chunks: seq<seq<byte>>): seq<Item>
    decreases |chunks|
  {
    if chunks == [] then [] else Parse(r + chunks[0]).items + Emitted(Residual(r, chunks[0]), chunks[1..])
  }

  function Left(r: seq<byte>, chunks: seq<seq<byte>>): seq<byte>
    decreases |chunks|
  {
    if chunks == [] then r else Left(Residual(r, chunks[0]), chunks[1..])
  }

  /** Stream reassembly conserves content, for every chunking of every byte string: what was emitted,
      followed by the full decode of what is left, is the full decode of all bytes received. */
  lemma {:induction false} Reassembly(r: seq<byte>, chunks: seq<seq<byte>>)
    ensures Emitted(r, chunks) + FullDecode(Left(r, chunks)) == FullDecode(r + Concat(chunks))
    decreases |chunks|
  {
    hide Parse, FullDecode;
    if chunks == [] {
      assert r + Concat(chunks) == r;
    } else {
      var x, rest := r + chunks[0], Concat(chunks[1..]);
      Reassembly(Residual(r, chunks[0]), chunks[1..]);
      DecodeSplit(x, rest);
      assert r + Concat(chunks) == x + rest;
    }
  }

  /** How many bytes the complete frames at the front take: a walk over headers. */
  function Framed(buf: seq<byte>): (n: nat)
    ensures n <= |buf|
    decreases |buf|
  {
    if HasFrame(buf) then FrontOf(buf).size + Framed(buf[FrontOf(buf).size..]) else 0
  }

  /** If an undecodable header follows the complete frames, then neither a complete frame nor another
      undecodable header follows its sixteen bytes. */
  predicate Quiet(all: seq<byte>) {
    var rest := all[Framed(all)..];
    FrontOf(rest).BadHeader? ==> Waits(rest[HEADER_WIRE_SIZE..])
  }

  /** After one pass over the whole buffer nothing decodable is left behind. */
  predicate Settled(all: seq<byte>) {
    Waits(all[Parse(all).consumed..])
  }

  /** The walk over headers tells where the parser stops and what it leaves. */
  lemma {:induction false} QuietIsSettled(all: seq<byte>)
    ensures Quiet(all) <==> Settled(all)
    ensures Parse(all).stopped <==> FrontOf(all[Framed(all)..]).BadHeader?
    decreases |all|
  {
    hide Parse, FrontOf, Framed;
    ParseUnfolds(all);
    FramedUnfolds(all);
    if HasFrame(all) {
      var rest := all[FrontOf(all).size..];
      QuietIsSettled(rest);
      assert rest[Framed(rest)..] == all[Framed(all)..] && rest[Parse(rest).consumed..] == all[Parse(all).consumed..];
    } else {
      assert all[0..] == all;
    }
  }

  lemma FramedUnfolds(buf: seq<byte>)
    ensures Framed(buf) == if HasFrame(buf) then FrontOf(buf).size + Framed(buf[FrontOf(buf).size..]) else 0
  {
  }

  /** From any residual, the chunks of a settled buffer emit what one pass over it emits. */
  lemma {:induction false} SettledStream(r: seq<byte>, chunks: seq<seq<byte>>)
    requires Settled(r + Concat(chunks))
    requires chunks == [] ==> Waits(r)
    ensures Emitted(r, chunks) == Parse(r + Concat(chunks)).items
    decreases |chunks|
  {
    hide Parse, FrontOf;
    if chunks == [] {
      assert r + Concat(chunks) == r;
      ParseUnfolds(r);
    } else {
      var x, rest := r + chunks[0], Concat(chunks[1..]);
      assert r + Concat(chunks) == x + rest;
      ParseSplit(x, rest);
      var p := Parse(x);
      var t := x[p.consumed..] + rest;
      assert (x + rest)[p.consumed..] == t;
      assert (x + rest)[p.consumed + Parse(t).consumed..] == t[Parse(t).consumed..];
      ParseUnfolds(t);
      assert t[0..] == t;
      if chunks[1..] == [] {
        assert t == x[p.consumed..];
        Leftover(x);
      }
      SettledStream(Residual(r, chunks[0]), chunks[1..]);
    }
  }

  lemma ConcatPair(a: seq<byte>, b: seq<byte>)
    ensures Concat([a, b]) == a + b
  {
    var cs := [a, b];
    assert cs[1..] == [b];
    assert Concat(cs[1..]) == b + Concat(cs[1..][1..]) == b;
  }

  lemma LouderSplit(all: seq<byte>)
    requires !Settled(all)
    ensures var c := Parse(all).consumed;
      |Emitted([], [all[..c], all[c..]])| > |Parse(all).items|
    ensures var c := Parse(all).consumed; Concat([all[..c], all[c..]]) == all
  {
    hide Parse, FrontOf;
    var c := Parse(all).consumed;
    var a, b := all[..c], all[c..];
    var cs := [a, b];
    Leftover(all);
    StoppedPrefix(all);
    assert cs[1..] == [b];
    assert [] + a == a && [] + b == b && b + [] == b;
    assert Residual([], a) == [];
    ConcatPair(a, b);
    assert a + b == all;
    ParseUnfolds(b);
    assert |Parse(b).items| > 0;
    assert Emitted([], [b]) == Parse(b).items + Emitted(Residual([], b), []);
    assert Emitted([], cs) == Parse(a).items + Emitted([], [b]);
  }

  /** Exactly when chunking does not matter: every chunking of a buffer emits what one pass over it
      emits if and only if the buffer is quiet. */
  lemma ChunkingIrrelevant(all: seq<byte>)
    ensures (forall chunks :: Concat(chunks) == all ==> Emitted([], chunks) == Parse(all).items) <==> Quiet(all)
  {
    hide Parse, FrontOf, Quiet, Settled, Emitted;
    QuietIsSettled(all);
    if Quiet(all) {
      forall chunks | Concat(chunks) == all ensures Emitted([], chunks) == Parse(all).items {
        assert [] + Concat(chunks) == all;
        NothingWaits();
        SettledStream([], chunks);
      }
    } else {
      LouderSplit(all);
    }
  }

  /** Where it does matter: of thirty-two bytes of 255, one pass reports one malformed header and keeps
      the second half; fed in two halves, the same bytes make two. */
  lemma ChunkingMatters()
    ensures var half: seq<byte> := seq(16, _ => 255);
      && !Quiet(half + half) && Concat([half, half]) == half + half
      && Parse(half + half).items == [Malformed] && Emitted([], [half, half]) == [Malformed, Malformed]
  {
    var half: seq<byte> := seq(16, _ => 255);
    var all := half + half;
    hide Parse, FrontOf, Framed, Emitted, Concat;
    StopsAtOnce(half);
    StopsAtOnce(all);
    assert all[16..] == half && half[16..] == [];
    StopsAtOnce(all[16..]);
    ConcatPair(half, half);
    TwoChunks(half, half);
    assert [] + half == half;
  }

  /** A type byte of 255 stops the parser before any frame. */
  lemma StopsAtOnce(buf: seq<byte>)
    requires |buf| >= HEADER_WIRE_SIZE && buf[0] == 255
    ensures Parse(buf) == Parsed(HEADER_WIRE_SIZE, [Malformed], false, true)
    ensures Framed(buf) == 0 && buf[Framed(buf)..] == buf && FrontOf(buf).BadHeader?
  {
    NotAHeader(buf);
    hide Parse, FrontOf, Framed;
    ParseUnfolds(buf);
    FramedUnfolds(buf);
  }

  lemma NotAHeader(buf: seq<byte>)
    requires |buf| >= HEADER_WIRE_SIZE && buf[0] == 255
    ensures FrontOf(buf) == BadHeader
  {
    var b := buf[..HEADER_WIRE_SIZE];
    assert b[0..1] == [255] && LeValue([255]) == 255 + 256 * LeValue([]);
  }

  lemma TwoChunks(a: seq<byte>, b: seq<byte>)
    ensures Emitted([], [a, b]) == Parse(a).items + Parse(Residual([], a) + b).items
  {
    hide Parse;
    var cs := [a, b];
    var r := Residual([], a);
    assert [] + a == a && cs[1..] == [b] && [b][1..] == [];
    assert Emitted(r, [b]) == Parse(r + b).items + Emitted(Residual(r, b), []);
    assert Parse(r + b).items + [] == Parse(r + b).items;
  }

  lemma NothingWaits()
    ensures Waits([])
  {
  }

  /** In particular when the walk meets no undecodable header. */
  lemma QuietIfNeverStopped(all: seq<byte>)
    requires !Parse(all).stopped
    ensures Quiet(all)
  {
    QuietIsSettled(all);
  }

  // ---- The wire round trip of a stream ----

  function Bytes(ms: seq<Message>): seq<byte> {
    if ms == [] then [] else EncodeMessage(ms[0]) + Bytes(ms[1..])
  }

  function Events(ms: seq<Message>): (r: seq<Item>)
    ensures |r| == |ms|
  {
    if ms == [] then [] else [Event(ms[0])] + Events(ms[1..])
  }

  lemma {:induction false} BytesConcat(a: seq<Message>, b: seq<Message>)
    ensures Bytes(a + b) == Bytes(a) + Bytes(b)
  {
    hide EncodeMessage;
    if a == [] {
      assert a + b == b;
    } else {
      assert (a + b)[1..] == a[1..] + b;
      BytesConcat(a[1..], b);
    }
  }

  lemma FrontOfEncoded(m: Message, rest: seq<byte>)
    requires Fits(m)
    ensures FrontOf(EncodeMessage(m) + rest) == Whole(FrameSize(m.body), m)
  {
    hide LeBytes, LeValue, EncodeBody, DecodeBody, EncodeHeader, DecodeHeader;
    var t := TypeOf(m.body);
    var h, b := EncodeHeader(t, m.sequence, m.timestamp), EncodeBody(m.body);
    var buf := EncodeMessage(m) + rest;
    HeaderRoundTrip(t, m.sequence, m.timestamp, []);
    BodyRoundTrip(m.body);
    assert buf[..HEADER_WIRE_SIZE] == h + [] == h;
    assert buf[HEADER_WIRE_SIZE..FrameSize(m.body)] == b;
  }

  /** Parsing the concatenated encodings of any messages dispatches exactly those messages, with their
      sequence numbers and timestamps, consumes every byte and reports nothing malformed. */
  lemma {:induction false} StreamRoundTrip(ms: seq<Message>)
    requires forall m :: m in ms ==> Fits(m)
    ensures Parse(Bytes(ms)) == Parsed(|Bytes(ms)|, Events(ms), false, false)
  {
    hide Parse, FrontOf, EncodeMessage, Fits;
    ParseUnfolds(Bytes(ms));
    if ms == [] {
      NothingArrived();
    } else {
      var e, rest := EncodeMessage(ms[0]), Bytes(ms[1..]);
      FrontOfEncoded(ms[0], rest);
      EncodedLength(ms[0]);
      assert (e + rest)[|e|..] == rest;
      assert forall m :: m in ms[1..] ==> m in ms;
      StreamRoundTrip(ms[1..]);
    }
  }

  lemma EncodedLength(m: Message)
    requires Fits(m)
    ensures |EncodeMessage(m)| == FrameSize(m.body)
  {
  }

  lemma NothingArrived()
    ensures FrontOf([]) == TooShort
  {
  }

  /** And so it does when the bytes arrive in arbitrary chunks; no byte is left pending. */
  lemma ChunkedRoundTrip(ms: seq<Message>, chunks: seq<seq<byte>>)
    requires (forall m :: m in ms ==> Fits(m)) && Concat(chunks) == Bytes(ms)
    ensures Emitted([], chunks) == Events(ms) && Left([], chunks) == []
  {
    hide Parse, FrontOf, EncodeMessage, Fits;
    var all := Bytes(ms);
    StreamRoundTrip(ms);
    assert [] + Concat(chunks) == all && all[|all|..] == [];
    NothingArrived();
    SettledStream([], chunks);
    ExactStream([], chunks);
  }

  /** A buffer that one pass consumes whole leaves nothing behind in any chunking. */
  lemma {:induction false} ExactStream(r: seq<byte>, chunks: seq<seq<byte>>)
    requires var p := Parse(r + Concat(chunks)); !p.stopped && p.consumed == |r + Concat(chunks)|
    requires chunks == [] ==> Waits(r)
    ensures Left(r, chunks) == []
    decreases |chunks|
  {
    hide Parse, FrontOf;
    if chunks == [] {
      assert r + Concat(chunks) == r;
      ParseUnfolds(r);
    } else {
      var x, rest := r + chunks[0], Concat(chunks[1..]);
      assert r + Concat(chunks) == x + rest;
      ParseSplit(x, rest);
      var t := x[Parse(x).consumed..];
      if chunks[1..] == [] {
        assert t + rest == t;
        Leftover(x);
      }
      ExactStream(t, chunks[1..]);
    }
  }

  // ---- Frame by frame ----

  /** The complete frames from the front, up to the first undecodable header or partial tail: what the
      pipeline's ingestion thread and the timed replay walk over. */
  function Frames(buf: seq<byte>): seq<seq<byte>>
    decreases |buf|
  {
    if HasFrame(buf) then [buf[..FrontOf(buf).size]] + Frames(buf[FrontOf(buf).size..]) else []
  }

  /** The item a complete frame parses to. */
  function FrameItems(frames: seq<seq<byte>>): (r: seq<Item>)
    ensures |r| == |frames|
  {
    if frames == [] then [] else [ItemOf(FrontOf(frames[0]))] + FrameItems(frames[1..])
  }

  lemma FrameAlone(buf: seq<byte>)
    requires HasFrame(buf)
    ensures var f := buf[..FrontOf(buf).size];
      FrontOf(f) == FrontOf(buf) && Parse(f) == Parsed(|f|, [ItemOf(FrontOf(f))], false, false)
  {
    hide Parse, FrontOf;
    var f := buf[..FrontOf(buf).size];
    FrontLocal(buf);
    ParseUnfolds(f);
    assert f[|f|..] == [];
    NothingArrived();
    ParseUnfolds([]);
  }

  /** One pass dispatches the items of the complete frames, and one malformed notice more if and only
      if it stopped at an undecodable header. */
  lemma {:induction false} ParseIsFrames(buf: seq<byte>)
    ensures Parse(buf).items == FrameItems(Frames(buf)) + if Parse(buf).stopped then [Malformed] else []
    decreases |buf|
  {
    hide Parse, FrontOf;
    ParseUnfolds(buf);
    if HasFrame(buf) {
      var n := FrontOf(buf).size;
      ParseIsFrames(buf[n..]);
      FrameAlone(buf);
      assert Frames(buf)[0] == buf[..n] && Frames(buf)[1..] == Frames(buf[n..]);
    }
  }

  // ---- Counting ----

  function EventsIn(items: seq<Item>): nat {
    if items == [] then 0 else (if items[0].Event? then 1 else 0) + EventsIn(items[1..])
  }

  function MalformedIn(items: seq<Item>): nat {
    if items == [] then 0 else (if items[0].Malformed? then 1 else 0) + MalformedIn(items[1..])
  }

  lemma {:induction false} CountConcat(a: seq<Item>, b: seq<Item>)
    ensures EventsIn(a + b) == EventsIn(a) + EventsIn(b)
    ensures MalformedIn(a + b) == MalformedIn(a) + MalformedIn(b)
  {
    if a == [] {
      assert a + b == b;
    } else {
      assert (a + b)[1..] == a[1..] + b;
      CountConcat(a[1..], b);
    }
  }

  lemma CountOne(x: Item)
    ensures EventsIn([x]) == (if x.Event? then 1 else 0) && MalformedIn([x]) == if x.Malformed? then 1 else 0
  {
    assert [x][1..] == [];
  }
}
