/** The wire format in numbers (include/mdfh/protocol.hpp:27-124, include/mdfh/serialization.hpp,
    include/mdfh/byte_order.hpp): type codes, sizes, offsets and byte order, written out as literals,
    against what the encoder writes and what the parser reads. */
module WireLayout {
  import opened Protocol
  import opened ByteOrder
  import opened Serialization
  import opened Parsing
  import opened FrameTallies

  // ---- Little-endian numbers ----

  function U16(b: seq<byte>, at: nat): nat
    requires at + 2 <= |b|
  {
    b[at] as int + 256 * (b[at + 1] as int)
  }

  function U32(b: seq<byte>, at: nat): nat
    requires at + 4 <= |b|
  {
    b[at] as int + 256 * (b[at + 1] as int) + 65536 * (b[at + 2] as int) + 16777216 * (b[at + 3] as int)
  }

  function U64(b: seq<byte>, at: nat): nat
    requires at + 8 <= |b|
  {
    U32(b, at) + 4294967296 * U32(b, at + 4)
  }

  /** Two's complement. */
  function I64(b: seq<byte>, at: nat): int
    requires at + 8 <= |b|
  {
    if b[at + 7] < 128 then U64(b, at) else U64(b, at) - 18446744073709551616
  }

  lemma FieldUnfolds(b: seq<byte>, at: nat, n: nat)
    requires at + n <= |b| && n > 0
    ensures Field(b, at, n) == b[at] + 256 * Field(b, at + 1, n - 1)
  {
    assert b[at..at + n][1..] == b[at + 1..at + n];
  }

  lemma FieldOfNone(b: seq<byte>, at: nat)
    requires at <= |b|
    ensures Field(b, at, 0) == 0
  {
  }

  /** Whatever the decoders read is the little-endian number written out above. */
  lemma FieldsInNumbers(b: seq<byte>, at: nat)
    ensures at + 1 <= |b| ==> Field(b, at, 1) == b[at]
    ensures at + 2 <= |b| ==> Field(b, at, 2) == U16(b, at)
    ensures at + 4 <= |b| ==> Field(b, at, 4) == U32(b, at)
  {
    hide Field;
    if at + 1 <= |b| {
      FieldUnfolds(b, at, 1);
      FieldOfNone(b, at + 1);
    }
    if at + 2 <= |b| {
      FieldUnfolds(b, at, 2);
      FieldUnfolds(b, at + 1, 1);
      FieldOfNone(b, at + 2);
    }
    if at + 4 <= |b| {
      FieldUnfolds(b, at, 4);
      FieldUnfolds(b, at + 1, 3);
      FieldUnfolds(b, at + 2, 2);
      FieldUnfolds(b, at + 3, 1);
      FieldOfNone(b, at + 4);
    }
  }

  lemma LongFieldInNumbers(b: seq<byte>, at: nat)
    requires at + 8 <= |b|
    ensures Field(b, at, 8) == U64(b, at) && ToSigned64(Field(b, at, 8)) == I64(b, at)
  {
    hide Field;
    FieldUnfolds(b, at, 8);
    FieldUnfolds(b, at + 1, 7);
    FieldUnfolds(b, at + 2, 6);
    FieldUnfolds(b, at + 3, 5);
    FieldsInNumbers(b, at + 4);
  }

  lemma FieldAt(b: seq<byte>, from: nat, to: nat, at: nat, n: nat)
    requires from + at + n <= to <= |b|
    ensures Field(b[from..to], at, n) == Field(b, from + at, n)
  {
    var x, y := b[from..to][at..at + n], b[from + at..from + at + n];
    assert |x| == |y| && forall i :: 0 <= i < n ==> x[i] == y[i];
    assert x == y;
  }

  // ---- Frames ----

  /** The frame `e` carries the message `m`. */
  ghost predicate LaidOut(e: seq<byte>, m: Message) {
    && |e| >= 16 && e[1] == 1 && U32(e, 4) == m.sequence && U64(e, 8) == m.timestamp
    && match m.body
       case Heartbeat =>
         |e| == 16 && e[0] == 0 && U16(e, 2) == 0
       case AddOrder(symbol, id, side, price, qty) =>
         && |e| == 41 && e[0] == 1 && U16(e, 2) == 25
         && U32(e, 16) == symbol && U64(e, 20) == id && e[28] == side && I64(e, 29) == price && U32(e, 37) == qty
       case CancelOrder(symbol, id) =>
         && |e| == 28 && e[0] == 2 && U16(e, 2) == 12
         && U32(e, 16) == symbol && U64(e, 20) == id
       case ModifyOrder(symbol, id, price, qty) =>
         && |e| == 40 && e[0] == 3 && U16(e, 2) == 24
         && U32(e, 16) == symbol && U64(e, 20) == id && I64(e, 28) == price && U32(e, 36) == qty
       case Trade(symbol, id, price, qty, side) =>
         && |e| == 41 && e[0] == 4 && U16(e, 2) == 25
         && U32(e, 16) == symbol && U64(e, 20) == id && I64(e, 28) == price && U32(e, 36) == qty && e[40] == side
       case BookSnapshot(symbol, nb, na, bids, asks) =>
         && |e| == 144 && e[0] == 5 && U16(e, 2) == 128
         && U32(e, 16) == symbol && e[20] == nb && e[21] == na
         && LevelsAt(e, 24, bids) && LevelsAt(e, 84, asks)
  }

  /** Five levels of twelve bytes: eight of price, four of quantity. */
  ghost predicate LevelsAt(e: seq<byte>, at: nat, levels: seq<SnapshotLevel>)
    requires at + 60 <= |e|
  {
    |levels| == 5 && forall i :: 0 <= i < 5 ==> levels[i] == SnapshotLevel(I64(e, at + 12 * i), U32(e, at + 12 * i + 8))
  }

  /** What stands at the front of a buffer, read off its header bytes: the type code is at most 5, the
      version is 1, the body size is that of the type. */
  lemma FrontInNumbers(buf: seq<byte>)
    ensures FrontOf(buf).TooShort? <==> |buf| < 16
    ensures |buf| >= 16 ==>
      var (f, size) := (FrontOf(buf), 16 + U16(buf, 2));
      && (f.BadHeader? <==> buf[0] > 5)
      && (f.Partial? <==> buf[0] <= 5 && size > |buf|)
      && (buf[0] <= 5 && size <= |buf| ==>
            if buf[1] == 1 && size == (match buf[0] case 0 => 16 case 1 => 41 case 2 => 28 case 3 => 40 case 4 => 41 case _ => 144)
            then f.Whole? && f.size == size
            else f == BadFrame(size))
  {
    hide DecodeBody, Field;
    if |buf| >= 16 {
      HeaderInNumbers(buf);
    }
  }

  lemma HeaderInNumbers(buf: seq<byte>)
    requires |buf| >= 16
    ensures DecodeHeader(buf[..16]) ==
      if buf[0] > 5 then None else Some(Header(buf[0], buf[1], U16(buf, 2), U32(buf, 4), U64(buf, 8)))
  {
    hide Field;
    FieldAt(buf, 0, 16, 0, 1);
    FieldAt(buf, 0, 16, 1, 1);
    FieldAt(buf, 0, 16, 2, 2);
    FieldAt(buf, 0, 16, 4, 4);
    FieldAt(buf, 0, 16, 8, 8);
    FieldsInNumbers(buf, 0);
    FieldsInNumbers(buf, 1);
    FieldsInNumbers(buf, 2);
    FieldsInNumbers(buf, 4);
    LongFieldInNumbers(buf, 8);
    assert buf[0..16] == buf[..16];
  }

  /** Symbol and order id come first in every order message. */
  lemma StartInNumbers(e: seq<byte>)
    requires |e| >= 28
    ensures Field(e[16..], 0, 4) == U32(e, 16) && Field(e[16..], 4, 8) == U64(e, 20)
  {
    hide Field;
    FieldAt(e, 16, |e|, 0, 4);
    FieldAt(e, 16, |e|, 4, 8);
    FieldsInNumbers(e, 16);
    LongFieldInNumbers(e, 20);
    assert e[16..|e|] == e[16..];
  }

  lemma ShortFieldsAt(e: seq<byte>, at: nat)
    requires |e| >= 16
    ensures 16 + at + 1 <= |e| ==> Field(e[16..], at, 1) == e[16 + at]
    ensures 16 + at + 4 <= |e| ==> Field(e[16..], at, 4) == U32(e, 16 + at)
  {
    hide Field;
    if 16 + at + 1 <= |e| { FieldAt(e, 16, |e|, at, 1); }
    if 16 + at + 4 <= |e| { FieldAt(e, 16, |e|, at, 4); }
    FieldsInNumbers(e, 16 + at);
    assert e[16..|e|] == e[16..];
  }

  lemma PriceAt(e: seq<byte>, at: nat)
    requires |e| >= 16 + at + 8
    ensures ToSigned64(Field(e[16..], at, 8)) == I64(e, 16 + at)
  {
    hide Field;
    FieldAt(e, 16, |e|, at, 8);
    LongFieldInNumbers(e, 16 + at);
    assert e[16..|e|] == e[16..];
  }

  lemma {:induction false} DecodedLevel(b: seq<byte>, at: nat, n: nat, i: nat)
    requires at + 12 * n <= |b| && i < n
    ensures DecodeLevels(b, at, n)[i] == DecodeLevel(b, at + 12 * i)
  {
    hide DecodeLevel;
    if i == n - 1 {
    } else {
      DecodedLevel(b, at, n - 1, i);
    }
  }

  lemma SnapshotLevels(e: seq<byte>, at: nat)
    requires 16 + at + 60 <= |e|
    ensures LevelsAt(e, 16 + at, DecodeLevels(e[16..], at, 5))
  {
    hide Field, DecodeLevels;
    forall i | 0 <= i < 5
      ensures DecodeLevels(e[16..], at, 5)[i] == SnapshotLevel(I64(e, 16 + at + 12 * i), U32(e, 16 + at + 12 * i + 8))
    {
      DecodedLevel(e[16..], at, 5, i);
      PriceAt(e, at + 12 * i);
      ShortFieldsAt(e, at + 12 * i + 8);
    }
  }

  lemma WholeInNumbers(e: seq<byte>)
    requires FrontOf(e).Whole? && FrontOf(e).size == |e|
    ensures e[0] <= 5 && |e| == 16 + BodySizeFor(e[0])
    ensures FrontOf(e).message == Message(U32(e, 4), U64(e, 8), DecodeBody(e[0], e[16..]))
  {
    hide Field, U16, U32, U64, DecodeHeader, DecodeBody;
    HeaderInNumbers(e);
    assert e[16..|e|] == e[16..];
  }

  lemma BodyInNumbers(e: seq<byte>)
    requires |e| >= 16 && e[0] <= 5 && |e| == 16 + BodySizeFor(e[0])
    requires e[1] == 1 && U16(e, 2) == BodySizeFor(e[0])
    ensures LaidOut(e, Message(U32(e, 4), U64(e, 8), DecodeBody(e[0], e[16..])))
  {
    hide Field, U16, U32, U64, I64, LevelsAt, DecodeLevels, ToSigned64;
    if |e| >= 28 { StartInNumbers(e); }
    if e[0] == 1 {
      ShortFieldsAt(e, 12);
      PriceAt(e, 13);
      ShortFieldsAt(e, 21);
    } else if e[0] == 3 {
      PriceAt(e, 12);
      ShortFieldsAt(e, 20);
    } else if e[0] == 4 {
      PriceAt(e, 12);
      ShortFieldsAt(e, 20);
      ShortFieldsAt(e, 24);
    } else if e[0] == 5 {
      ShortFieldsAt(e, 4);
      ShortFieldsAt(e, 5);
      SnapshotLevels(e, 8);
      SnapshotLevels(e, 68);
    }
  }

  /** A frame the parser takes whole carries the message it dispatches, field by field. */
  lemma DecodedInNumbers(e: seq<byte>)
    requires FrontOf(e).Whole? && FrontOf(e).size == |e|
    ensures LaidOut(e, FrontOf(e).message)
  {
    hide FrontOf, U16, LaidOut, DecodeBody;
    FrontInNumbers(e);
    WholeInNumbers(e);
    BodyInNumbers(e);
  }

  /** The encoder writes that layout, for every message that fits; a snapshot's reserved bytes are zero. */
  lemma EncodedInNumbers(m: Message)
    requires Fits(m)
    ensures LaidOut(EncodeMessage(m), m)
    ensures m.body.BookSnapshot? ==> EncodeMessage(m)[22] == 0 && EncodeMessage(m)[23] == 0
  {
    hide EncodeMessage, FrontOf, LaidOut, Fits;
    var e := EncodeMessage(m);
    assert e + [] == e;
    FrontOfEncoded(m, []);
    EncodedLength(m);
    DecodedInNumbers(e);
    if m.body.BookSnapshot? { ReservedAreZero(m); }
  }

  lemma ReservedAreZero(m: Message)
    requires Fits(m) && m.body.BookSnapshot?
    ensures EncodeMessage(m)[22] == 0 && EncodeMessage(m)[23] == 0
  {
    hide EncodeHeader, EncodeLevels;
    var b := m.body;
    var head := EncodeHeader(TypeOf(b), m.sequence, m.timestamp);
    assert LeBytes(2, 0) == [0] + LeBytes(1, 0) && LeBytes(1, 0) == [0] + LeBytes(0, 0);
    hide LeBytes;
    assert EncodeMessage(m)[22] == EncodeBody(b)[6] && EncodeMessage(m)[23] == EncodeBody(b)[7];
    assert EncodeBody(b)[6..8] == LeBytes(2, 0);
  }

  /** A layout fixes the message. */
  lemma OneMessage(e: seq<byte>, m: Message, n: Message)
    requires LaidOut(e, m) && LaidOut(e, n)
    ensures m == n
  {
    hide U16, U32, U64, I64;
  }

  /** So a 28-byte frame that starts 2, 1, 12, 0 is parsed as a cancel of the order named in it. */
  lemma CancelFrame(e: seq<byte>)
    requires |e| == 28 && e[..4] == [2, 1, 12, 0]
    ensures Parse(e) == Parsed(28, [Event(Message(U32(e, 4), U64(e, 8), CancelOrder(U32(e, 16), U64(e, 20))))], false, false)
  {
    assert e[0] == e[..4][0] && e[1] == e[..4][1] && e[2] == e[..4][2] && e[3] == e[..4][3];
    FrontInNumbers(e);
    DecodedInNumbers(e);
    hide FrontOf, Parse;
    assert e[..28] == e;
    FrameAlone(e);
  }

  /** The pipeline passes frames of at most 144 bytes and skips the others. */
  lemma {:induction false} ShortInNumbers(frames: seq<seq<byte>>)
    ensures forall x :: x in Short(frames) <==> x in frames && |x| <= 144
  {
    if frames == [] {
    } else {
      ShortInNumbers(frames[1..]);
      assert frames == [frames[0]] + frames[1..];
    }
  }
}
