/** Byte-exact framing (include/mdfh/serialization.hpp): what each encoder writes, what each decoder
    reads at its explicit offsets, that the two are inverse in both directions, and the imperative
    encoders and decoders proved against them. */
module Serialization {
  import opened Protocol
  import opened ByteOrder

  // ---- Encoding ----

  function EncodeHeader(t: nat, seqNo: nat, ts: nat): (r: seq<byte>)
    ensures |r| == HEADER_WIRE_SIZE
  {
    LeBytes(1, t) + LeBytes(1, PROTOCOL_VERSION) + LeBytes(2, BodySizeFor(t)) + LeBytes(4, seqNo) + LeBytes(8, ts)
  }

  function EncodeLevel(l: SnapshotLevel): (r: seq<byte>)
    ensures |r| == 12
  {
    LeBytes(8, ToUnsigned64(l.price)) + LeBytes(4, l.quantity)
  }

  function EncodeLevels(ls: seq<SnapshotLevel>): (r: seq<byte>)
    ensures |r| == 12 * |ls|
  {
    if ls == [] then [] else EncodeLevels(ls[..|ls| - 1]) + EncodeLevel(ls[|ls| - 1])
  }

  function EncodeBody(b: Body): (r: seq<byte>)
    ensures BodyFits(b) ==> |r| == BodySizeFor(TypeOf(b))
  {
    match b
    case Heartbeat => []
    case AddOrder(symbol, id, side, price, qty) =>
      LeBytes(4, symbol) + LeBytes(8, id) + LeBytes(1, side) + LeBytes(8, ToUnsigned64(price)) + LeBytes(4, qty)
    case CancelOrder(symbol, id) =>
      LeBytes(4, symbol) + LeBytes(8, id)
    case ModifyOrder(symbol, id, price, qty) =>
      LeBytes(4, symbol) + LeBytes(8, id) + LeBytes(8, ToUnsigned64(price)) + LeBytes(4, qty)
    case Trade(symbol, id, price, qty, side) =>
      LeBytes(4, symbol) + LeBytes(8, id) + LeBytes(8, ToUnsigned64(price)) + LeBytes(4, qty) + LeBytes(1, side)
    case BookSnapshot(symbol, nb, na, bids, asks) =>
      LeBytes(4, symbol) + LeBytes(1, nb) + LeBytes(1, na) + LeBytes(2, 0) + EncodeLevels(bids) + EncodeLevels(asks)
  }

  function EncodeMessage(m: Message): (r: seq<byte>)
    ensures BodyFits(m.body) ==> |r| == FrameSize(m.body)
  {
    EncodeHeader(TypeOf(m.body), m.sequence, m.timestamp) + EncodeBody(m.body)
  }

  // ---- Decoding ----

  /** The unsigned little-endian number in the `n` bytes at `at`. */
  function Field(b: seq<byte>, at: nat, n: nat): (r: nat)
    requires at + n <= |b|
    ensures r < Pow256(n)
  {
    LeValue(b[at..at + n])
  }

  /** None when the buffer is shorter than a header or the type byte is not one of the six. */
  function DecodeHeader(buf: seq<byte>): (r: Option<Header>)
    ensures r.Some? ==> IsValidMsgType(r.value.msgType) && r.value.bodySize < TWO16
  {
    WidthValues();
    if |buf| < HEADER_WIRE_SIZE then None
    else if !IsValidMsgType(Field(buf, 0, 1)) then None
    else Some(Header(Field(buf, 0, 1), Field(buf, 1, 1), Field(buf, 2, 2), Field(buf, 4, 4), Field(buf, 8, 8)))
  }

  function DecodeLevel(b: seq<byte>, at: nat): SnapshotLevel
    requires at + 12 <= |b|
  {
    SnapshotLevel(ToSigned64(Field(b, at, 8)), Field(b, at + 8, 4))
  }

  function DecodeLevels(b: seq<byte>, at: nat, n: nat): (r: seq<SnapshotLevel>)
    requires at + 12 * n <= |b|
    ensures |r| == n
    ensures forall i :: 0 <= i < n ==> PriceFits(r[i].price) && r[i].quantity < TWO32
  {
    WidthValues();
    if n == 0 then [] else DecodeLevels(b, at, n - 1) + [DecodeLevel(b, at + 12 * (n - 1))]
  }

  function DecodeBody(t: nat, b: seq<byte>): (r: Body)
    requires IsValidMsgType(t) && |b| == BodySizeFor(t)
    ensures TypeOf(r) == t
  {
    if t == HEARTBEAT then Heartbeat
    else if t == ADD_ORDER then
      AddOrder(Field(b, 0, 4), Field(b, 4, 8), Field(b, 12, 1), ToSigned64(Field(b, 13, 8)), Field(b, 21, 4))
    else if t == CANCEL_ORDER then
      CancelOrder(Field(b, 0, 4), Field(b, 4, 8))
    else if t == MODIFY_ORDER then
      ModifyOrder(Field(b, 0, 4), Field(b, 4, 8), ToSigned64(Field(b, 12, 8)), Field(b, 20, 4))
    else if t == TRADE then
      Trade(Field(b, 0, 4), Field(b, 4, 8), ToSigned64(Field(b, 12, 8)), Field(b, 20, 4), Field(b, 24, 1))
    else
      BookSnapshot(Field(b, 0, 4), Field(b, 4, 1), Field(b, 5, 1), DecodeLevels(b, 8, 5), DecodeLevels(b, 68, 5))
  }

  lemma DecodedBodyFits(t: nat, b: seq<byte>)
    requires IsValidMsgType(t) && |b| == BodySizeFor(t)
    ensures BodyFits(DecodeBody(t, b))
  {
    WidthValues();
  }

  // ---- Round trips ----

  lemma HeaderRoundTrip(t: nat, seqNo: nat, ts: nat, rest: seq<byte>)
    requires IsValidMsgType(t) && seqNo < TWO32 && ts < TWO64
    ensures DecodeHeader(EncodeHeader(t, seqNo, ts) + rest)
         == Some(Header(t, PROTOCOL_VERSION, BodySizeFor(t), seqNo, ts))
  {
    hide LeBytes, LeValue;
    WidthValues();
    var b := EncodeHeader(t, seqNo, ts) + rest;
    assert b[0..1] == LeBytes(1, t);
    assert b[1..2] == LeBytes(1, PROTOCOL_VERSION);
    assert b[2..4] == LeBytes(2, BodySizeFor(t));
    assert b[4..8] == LeBytes(4, seqNo);
    assert b[8..16] == LeBytes(8, ts);
    LoadAfterStore(1, t);
    LoadAfterStore(1, PROTOCOL_VERSION);
    LoadAfterStore(2, BodySizeFor(t));
    LoadAfterStore(4, seqNo);
    LoadAfterStore(8, ts);
  }

  lemma LevelRoundTrip(l: SnapshotLevel, b: seq<byte>, at: nat)
    requires PriceFits(l.price) && l.quantity < TWO32
    requires at + 12 <= |b| && b[at..at + 12] == EncodeLevel(l)
    ensures DecodeLevel(b, at) == l
  {
    hide LeBytes, LeValue;
    WidthValues();
    SignedAfterUnsigned(l.price);
    LoadAfterStore(8, ToUnsigned64(l.price));
    LoadAfterStore(4, l.quantity);
    assert b[at..at + 8] == b[at..at + 12][..8] && b[at + 8..at + 12] == b[at..at + 12][8..];
  }

  lemma SplitSlice(b: seq<byte>, at: nat, x: seq<byte>, y: seq<byte>)
    requires at + |x| + |y| <= |b| && b[at..at + |x| + |y|] == x + y
    ensures b[at..at + |x|] == x && b[at + |x|..at + |x| + |y|] == y
  {
    var s := b[at..at + |x| + |y|];
    assert b[at..at + |x|] == s[..|x|] && b[at + |x|..at + |x| + |y|] == s[|x|..];
  }

  lemma {:induction false} LevelsRoundTrip(ls: seq<SnapshotLevel>, b: seq<byte>, at: nat)
    requires forall i :: 0 <= i < |ls| ==> PriceFits(ls[i].price) && ls[i].quantity < TWO32
    requires at + 12 * |ls| <= |b| && b[at..at + 12 * |ls|] == EncodeLevels(ls)
    ensures DecodeLevels(b, at, |ls|) == ls
  {
    hide LeBytes, LeValue, EncodeLevel, DecodeLevel;
    if ls == [] {
    } else {
      var n := |ls| - 1;
      var mid := at + 12 * n;
      SplitSlice(b, at, EncodeLevels(ls[..n]), EncodeLevel(ls[n]));
      LevelsRoundTrip(ls[..n], b, at);
      LevelRoundTrip(ls[n], b, mid);
    }
  }

  lemma AddRoundTrip(b: Body)
    requires b.AddOrder? && BodyFits(b)
    ensures DecodeBody(ADD_ORDER, EncodeBody(b)) == b
  {
    hide LeBytes, LeValue;
    WidthValues();
    SignedAfterUnsigned(b.price);
    var e := EncodeBody(b);
    assert e[0..4] == LeBytes(4, b.symbol) && e[4..12] == LeBytes(8, b.orderId) && e[12..13] == LeBytes(1, b.side);
    assert e[13..21] == LeBytes(8, ToUnsigned64(b.price)) && e[21..25] == LeBytes(4, b.quantity);
    LoadAfterStore(4, b.symbol); LoadAfterStore(8, b.orderId); LoadAfterStore(1, b.side);
    LoadAfterStore(8, ToUnsigned64(b.price)); LoadAfterStore(4, b.quantity);
  }

  lemma CancelRoundTrip(b: Body)
    requires b.CancelOrder? && BodyFits(b)
    ensures DecodeBody(CANCEL_ORDER, EncodeBody(b)) == b
  {
    hide LeBytes, LeValue;
    WidthValues();
    var e := EncodeBody(b);
    assert e[0..4] == LeBytes(4, b.symbol) && e[4..12] == LeBytes(8, b.orderId);
    LoadAfterStore(4, b.symbol); LoadAfterStore(8, b.orderId);
  }

  lemma ModifyRoundTrip(b: Body)
    requires b.ModifyOrder? && BodyFits(b)
    ensures DecodeBody(MODIFY_ORDER, EncodeBody(b)) == b
  {
    hide LeBytes, LeValue;
    WidthValues();
    SignedAfterUnsigned(b.newPrice);
    var e := EncodeBody(b);
    assert e[0..4] == LeBytes(4, b.symbol) && e[4..12] == LeBytes(8, b.orderId);
    assert e[12..20] == LeBytes(8, ToUnsigned64(b.newPrice)) && e[20..24] == LeBytes(4, b.newQuantity);
    LoadAfterStore(4, b.symbol); LoadAfterStore(8, b.orderId);
    LoadAfterStore(8, ToUnsigned64(b.newPrice)); LoadAfterStore(4, b.newQuantity);
  }

  lemma TradeRoundTrip(b: Body)
    requires b.Trade? && BodyFits(b)
    ensures DecodeBody(TRADE, EncodeBody(b)) == b
  {
    hide LeBytes, LeValue;
    WidthValues();
    SignedAfterUnsigned(b.price);
    var e := EncodeBody(b);
    assert e[0..4] == LeBytes(4, b.symbol) && e[4..12] == LeBytes(8, b.restingOrderId);
    assert e[12..20] == LeBytes(8, ToUnsigned64(b.price)) && e[20..24] == LeBytes(4, b.quantity);
    assert e[24..25] == LeBytes(1, b.aggressorSide);
    LoadAfterStore(4, b.symbol); LoadAfterStore(8, b.restingOrderId); LoadAfterStore(1, b.aggressorSide);
    LoadAfterStore(8, ToUnsigned64(b.price)); LoadAfterStore(4, b.quantity);
  }

  lemma SnapshotRoundTrip(b: Body)
    requires b.BookSnapshot? && BodyFits(b)
    ensures DecodeBody(BOOK_SNAPSHOT, EncodeBody(b)) == b
  {
    hide LeBytes, LeValue;
    WidthValues();
    var e := EncodeBody(b);
    assert e[0..4] == LeBytes(4, b.symbol);
    assert e[4..5] == LeBytes(1, b.numBidLevels) && e[5..6] == LeBytes(1, b.numAskLevels);
    LoadAfterStore(4, b.symbol); LoadAfterStore(1, b.numBidLevels); LoadAfterStore(1, b.numAskLevels);
    var head := LeBytes(4, b.symbol) + LeBytes(1, b.numBidLevels) + LeBytes(1, b.numAskLevels) + LeBytes(2, 0);
    assert e == head + EncodeLevels(b.bids) + EncodeLevels(b.asks);
    assert |head| == 8 && |EncodeLevels(b.bids)| == 60 && |EncodeLevels(b.asks)| == 60;
    assert e[8..68] == EncodeLevels(b.bids);
    assert e[68..] == EncodeLevels(b.asks) && e[68..] == e[68..128];
    LevelsRoundTrip(b.bids, e, 8);
    LevelsRoundTrip(b.asks, e, 68);
  }

  /** Decoding an encoded body gives the body back. */
  lemma BodyRoundTrip(b: Body)
    requires BodyFits(b)
    ensures DecodeBody(TypeOf(b), EncodeBody(b)) == b
  {
    match b
    case Heartbeat =>
    case AddOrder(_, _, _, _, _) => AddRoundTrip(b);
    case CancelOrder(_, _) => CancelRoundTrip(b);
    case ModifyOrder(_, _, _, _) => ModifyRoundTrip(b);
    case Trade(_, _, _, _, _) => TradeRoundTrip(b);
    case BookSnapshot(_, _, _, _, _) => SnapshotRoundTrip(b);
  }

  lemma FieldBytes(b: seq<byte>, at: nat, n: nat)
    requires at + n <= |b|
    ensures LeBytes(n, Field(b, at, n)) == b[at..at + n]
  {
    StoreAfterLoad(b[at..at + n]);
  }

  lemma SignedFieldBytes(b: seq<byte>, at: nat)
    requires at + 8 <= |b|
    ensures LeBytes(8, ToUnsigned64(ToSigned64(Field(b, at, 8)))) == b[at..at + 8]
  {
    WidthValues();
    FieldBytes(b, at, 8);
  }

  lemma LevelBytes(b: seq<byte>, at: nat)
    requires at + 12 <= |b|
    ensures EncodeLevel(DecodeLevel(b, at)) == b[at..at + 12]
  {
    hide LeBytes, LeValue;
    SignedFieldBytes(b, at);
    FieldBytes(b, at + 8, 4);
    assert b[at..at + 12] == b[at..at + 8] + b[at + 8..at + 12];
  }

  lemma {:induction false} LevelsBytes(b: seq<byte>, at: nat, n: nat)
    requires at + 12 * n <= |b|
    ensures EncodeLevels(DecodeLevels(b, at, n)) == b[at..at + 12 * n]
  {
    hide LeBytes, LeValue, EncodeLevel, DecodeLevel;
    if n == 0 {
    } else {
      var mid := at + 12 * (n - 1);
      var front, last := DecodeLevels(b, at, n - 1), DecodeLevel(b, mid);
      var ls := DecodeLevels(b, at, n);
      LevelsBytes(b, at, n - 1);
      LevelBytes(b, mid);
      assert ls == front + [last] && ls[..n - 1] == front && ls[n - 1] == last;
      assert b[at..mid] + b[mid..mid + 12] == b[at..mid + 12];
    }
  }

  lemma AddBytes(b: seq<byte>)
    requires |b| == BodySizeFor(ADD_ORDER)
    ensures EncodeBody(DecodeBody(ADD_ORDER, b)) == b
  {
    hide LeBytes, LeValue;
    FieldBytes(b, 0, 4); FieldBytes(b, 4, 8); FieldBytes(b, 12, 1); SignedFieldBytes(b, 13); FieldBytes(b, 21, 4);
    var e := EncodeBody(DecodeBody(ADD_ORDER, b));
    assert e == b[0..4] + b[4..12] + b[12..13] + b[13..21] + b[21..25];
    assert b == b[0..4] + b[4..12] + b[12..13] + b[13..21] + b[21..25];
  }

  lemma CancelBytes(b: seq<byte>)
    requires |b| == BodySizeFor(CANCEL_ORDER)
    ensures EncodeBody(DecodeBody(CANCEL_ORDER, b)) == b
  {
    hide LeBytes, LeValue;
    FieldBytes(b, 0, 4); FieldBytes(b, 4, 8);
    var e := EncodeBody(DecodeBody(CANCEL_ORDER, b));
    assert e == b[0..4] + b[4..12];
    assert b == b[0..4] + b[4..12];
  }

  lemma ModifyBytes(b: seq<byte>)
    requires |b| == BodySizeFor(MODIFY_ORDER)
    ensures EncodeBody(DecodeBody(MODIFY_ORDER, b)) == b
  {
    hide LeBytes, LeValue;
    FieldBytes(b, 0, 4); FieldBytes(b, 4, 8); SignedFieldBytes(b, 12); FieldBytes(b, 20, 4);
    var e := EncodeBody(DecodeBody(MODIFY_ORDER, b));
    assert e == b[0..4] + b[4..12] + b[12..20] + b[20..24];
    assert b == b[0..4] + b[4..12] + b[12..20] + b[20..24];
  }

  lemma TradeBytes(b: seq<byte>)
    requires |b| == BodySizeFor(TRADE)
    ensures EncodeBody(DecodeBody(TRADE, b)) == b
  {
    hide LeBytes, LeValue;
    FieldBytes(b, 0, 4); FieldBytes(b, 4, 8); SignedFieldBytes(b, 12); FieldBytes(b, 20, 4); FieldBytes(b, 24, 1);
    var e := EncodeBody(DecodeBody(TRADE, b));
    assert e == b[0..4] + b[4..12] + b[12..20] + b[20..24] + b[24..25];
    assert b == b[0..4] + b[4..12] + b[12..20] + b[20..24] + b[24..25];
  }

  /** Re-encoding a decoded body gives its bytes back; for a snapshot exactly when the two reserved
      bytes are zero. */
  lemma BytesRoundTrip(t: nat, b: seq<byte>)
    requires IsValidMsgType(t) && |b| == BodySizeFor(t)
    ensures EncodeBody(DecodeBody(t, b)) == b <==> (t == BOOK_SNAPSHOT ==> b[6] == 0 && b[7] == 0)
  {
    if t == BOOK_SNAPSHOT { SnapshotBytes(b); }
    else if t == ADD_ORDER { AddBytes(b); }
    else if t == CANCEL_ORDER { CancelBytes(b); }
    else if t == MODIFY_ORDER { ModifyBytes(b); }
    else if t == TRADE { TradeBytes(b); }
  }

  lemma ReservedBytes()
    ensures LeBytes(2, 0) == [0, 0]
  {
    assert LeBytes(1, 0) == [0];
  }

  lemma SnapshotBytes(b: seq<byte>)
    requires |b| == SNAPSHOT_BODY_SIZE
    ensures EncodeBody(DecodeBody(BOOK_SNAPSHOT, b)) == b <==> b[6] == 0 && b[7] == 0
  {
    hide LeBytes, LeValue;
    FieldBytes(b, 0, 4); FieldBytes(b, 4, 1); FieldBytes(b, 5, 1);
    LevelsBytes(b, 8, 5);
    LevelsBytes(b, 68, 5);
    var e := EncodeBody(DecodeBody(BOOK_SNAPSHOT, b));
    ReservedBytes();
    assert e == b[0..4] + b[4..5] + b[5..6] + [0, 0] + b[8..68] + b[68..128];
    assert e[6] == 0 && e[7] == 0;
    assert b == b[0..4] + b[4..5] + b[5..6] + [b[6], b[7]] + b[8..68] + b[68..128];
  }

  /** Re-encoding a well-formed frame gives the frame back. */
  lemma FrameBytesRoundTrip(f: seq<byte>)
    requires DecodeHeader(f).Some?
    requires var h := DecodeHeader(f).value;
      h.version == PROTOCOL_VERSION && h.bodySize == BodySizeFor(h.msgType) && |f| == HEADER_WIRE_SIZE + h.bodySize
    ensures var h := DecodeHeader(f).value;
      EncodeMessage(Message(h.sequence, h.timestamp, DecodeBody(h.msgType, f[HEADER_WIRE_SIZE..]))) == f
      <==> (h.msgType == BOOK_SNAPSHOT ==> f[22] == 0 && f[23] == 0)
  {
    hide LeBytes, LeValue;
    var h := DecodeHeader(f).value;
    var body := f[HEADER_WIRE_SIZE..];
    FieldBytes(f, 0, 1); FieldBytes(f, 1, 1); FieldBytes(f, 2, 2); FieldBytes(f, 4, 4); FieldBytes(f, 8, 8);
    assert EncodeHeader(h.msgType, h.sequence, h.timestamp) == f[..HEADER_WIRE_SIZE];
    BytesRoundTrip(h.msgType, body);
    DecodedBodyFits(h.msgType, body);
    var e := EncodeBody(DecodeBody(h.msgType, body));
    assert f[..HEADER_WIRE_SIZE] + body == f;
    assert (f[..HEADER_WIRE_SIZE] + e)[HEADER_WIRE_SIZE..] == e;
  }

  // ---- The encoders and decoders as the source runs them ----

  method WriteHeader(out: array<byte>, t: nat, seqNo: nat, ts: nat) returns (p: nat)
    requires HEADER_WIRE_SIZE <= out.Length
    modifies out
    ensures p == HEADER_WIRE_SIZE && out[..p] == EncodeHeader(t, seqNo, ts)
    ensures forall k :: p <= k < out.Length ==> out[k] == old(out[k])
  {
    hide LeBytes;
    p := StoreLe(out, 0, 1, t);
    p := StoreLe(out, p, 1, PROTOCOL_VERSION);
    p := StoreLe(out, p, 2, BodySizeFor(t));
    p := StoreLe(out, p, 4, seqNo);
    p := StoreLe(out, p, 8, ts);
  }

  method WriteLevels(out: array<byte>, start: nat, levels: seq<SnapshotLevel>) returns (p: nat)
    requires start + 12 * |levels| <= out.Length
    modifies out
    ensures p == start + 12 * |levels|
    ensures out[..p] == old(out[..start]) + EncodeLevels(levels)
    ensures forall k :: p <= k < out.Length ==> out[k] == old(out[k])
  {
    hide LeBytes;
    p := start;
    var i := 0;
    while i < |levels|
      invariant 0 <= i <= |levels| && p == start + 12 * i
      invariant out[..p] == old(out[..start]) + EncodeLevels(levels[..i])
      invariant forall k :: p <= k < out.Length ==> out[k] == old(out[k])
    {
      ghost var before := out[..p];
      var l := levels[i];
      p := StoreLe(out, p, 8, ToUnsigned64(l.price));
      p := StoreLe(out, p, 4, l.quantity);
      assert levels[..i + 1][..i] == levels[..i];
      assert out[..p] == before + EncodeLevel(l);
      i := i + 1;
    }
    assert levels[..i] == levels;
  }

  method WriteSnapshot(out: array<byte>, start: nat, b: Body) returns (p: nat)
    requires b.BookSnapshot? && BodyFits(b) && start + SNAPSHOT_BODY_SIZE <= out.Length
    modifies out
    ensures p == start + SNAPSHOT_BODY_SIZE
    ensures out[..p] == old(out[..start]) + EncodeBody(b)
    ensures forall k :: p <= k < out.Length ==> out[k] == old(out[k])
  {
    hide LeBytes;
    p := StoreLe(out, start, 4, b.symbol);
    p := StoreLe(out, p, 1, b.numBidLevels);
    p := StoreLe(out, p, 1, b.numAskLevels);
    p := StoreLe(out, p, 2, 0);
    p := WriteLevels(out, p, b.bids);
    p := WriteLevels(out, p, b.asks);
  }

  method WriteAdd(out: array<byte>, start: nat, b: Body) returns (p: nat)
    requires b.AddOrder? && start + BodySizeFor(ADD_ORDER) <= out.Length
    modifies out
    ensures p == start + BodySizeFor(ADD_ORDER)
    ensures out[..p] == old(out[..start]) + EncodeBody(b)
    ensures forall k :: p <= k < out.Length ==> out[k] == old(out[k])
  {
    hide LeBytes;
    p := StoreLe(out, start, 4, b.symbol);
    p := StoreLe(out, p, 8, b.orderId);
    p := StoreLe(out, p, 1, b.side);
    p := StoreLe(out, p, 8, ToUnsigned64(b.price));
    p := StoreLe(out, p, 4, b.quantity);
  }

  method WriteCancel(out: array<byte>, start: nat, b: Body) returns (p: nat)
    requires b.CancelOrder? && start + BodySizeFor(CANCEL_ORDER) <= out.Length
    modifies out
    ensures p == start + BodySizeFor(CANCEL_ORDER)
    ensures out[..p] == old(out[..start]) + EncodeBody(b)
    ensures forall k :: p <= k < out.Length ==> out[k] == old(out[k])
  {
    hide LeBytes;
    p := StoreLe(out, start, 4, b.symbol);
    p := StoreLe(out, p, 8, b.orderId);
  }

  method WriteModify(out: array<byte>, start: nat, b: Body) returns (p: nat)
    requires b.ModifyOrder? && start + BodySizeFor(MODIFY_ORDER) <= out.Length
    modifies out
    ensures p == start + BodySizeFor(MODIFY_ORDER)
    ensures out[..p] == old(out[..start]) + EncodeBody(b)
    ensures forall k :: p <= k < out.Length ==> out[k] == old(out[k])
  {
    hide LeBytes;
    p := StoreLe(out, start, 4, b.symbol);
    p := StoreLe(out, p, 8, b.orderId);
    p := StoreLe(out, p, 8, ToUnsigned64(b.newPrice));
    p := StoreLe(out, p, 4, b.newQuantity);
  }

  method WriteTrade(out: array<byte>, start: nat, b: Body) returns (p: nat)
    requires b.Trade? && start + BodySizeFor(TRADE) <= out.Length
    modifies out
    ensures p == start + BodySizeFor(TRADE)
    ensures out[..p] == old(out[..start]) + EncodeBody(b)
    ensures forall k :: p <= k < out.Length ==> out[k] == old(out[k])
  {
    hide LeBytes;
    p := StoreLe(out, start, 4, b.symbol);
    p := StoreLe(out, p, 8, b.restingOrderId);
    p := StoreLe(out, p, 8, ToUnsigned64(b.price));
    p := StoreLe(out, p, 4, b.quantity);
    p := StoreLe(out, p, 1, b.aggressorSide);
  }

  /** Writes the body only, at `start`. */
  method WriteBody(out: array<byte>, start: nat, b: Body) returns (p: nat)
    requires BodyFits(b) && start + BodySizeFor(TypeOf(b)) <= out.Length
    modifies out
    ensures p == start + BodySizeFor(TypeOf(b))
    ensures out[..p] == old(out[..start]) + EncodeBody(b)
    ensures forall k :: p <= k < out.Length ==> out[k] == old(out[k])
  {
    match b
    case Heartbeat => p := start;
    case AddOrder(_, _, _, _, _) => p := WriteAdd(out, start, b);
    case CancelOrder(_, _) => p := WriteCancel(out, start, b);
    case ModifyOrder(_, _, _, _) => p := WriteModify(out, start, b);
    case Trade(_, _, _, _, _) => p := WriteTrade(out, start, b);
    case BookSnapshot(_, _, _, _, _) => p := WriteSnapshot(out, start, b);
  }

  /** Frames one message at the front of `out`; 0 when it does not fit, and then `out` is untouched. */
  method WriteMessage(out: array<byte>, m: Message) returns (n: nat)
    requires Fits(m)
    modifies out
    ensures n == if out.Length < FrameSize(m.body) then 0 else FrameSize(m.body)
    ensures n > 0 ==> out[..n] == EncodeMessage(m)
    ensures forall k :: n <= k < out.Length ==> out[k] == old(out[k])
  {
    if out.Length < FrameSize(m.body) {
      return 0;
    }
    var p := WriteHeader(out, TypeOf(m.body), m.sequence, m.timestamp);
    n := WriteBody(out, p, m.body);
  }

  method ReadHeader(buf: seq<byte>) returns (r: Option<Header>)
    ensures r == DecodeHeader(buf)
  {
    hide LeValue;
    if |buf| < HEADER_WIRE_SIZE { return None; }
    var t := LoadLe(buf, 0, 1);
    if !IsValidMsgType(t) { return None; }
    var version := LoadLe(buf, 1, 1);
    var size := LoadLe(buf, 2, 2);
    var sequence := LoadLe(buf, 4, 4);
    var timestamp := LoadLe(buf, 8, 8);
    r := Some(Header(t, version, size, sequence, timestamp));
  }

  method ReadLevels(b: seq<byte>, start: nat) returns (levels: seq<SnapshotLevel>, off: nat)
    requires start + 12 * MAX_SNAPSHOT_LEVELS <= |b|
    ensures levels == DecodeLevels(b, start, MAX_SNAPSHOT_LEVELS)
    ensures off == start + 12 * MAX_SNAPSHOT_LEVELS
  {
    hide LeValue;
    levels, off := [], start;
    while |levels| < MAX_SNAPSHOT_LEVELS
      invariant |levels| <= MAX_SNAPSHOT_LEVELS && off == start + 12 * |levels|
      invariant levels == DecodeLevels(b, start, |levels|)
    {
      var price := LoadLe(b, off, 8);
      var quantity := LoadLe(b, off + 8, 4);
      levels := levels + [SnapshotLevel(ToSigned64(price), quantity)];
      off := off + 12;
    }
  }

  /** The six body decoders; None when the span is shorter than the type's body. */
  method ReadBody(t: nat, b: seq<byte>) returns (r: Option<Body>)
    requires IsValidMsgType(t)
    ensures r.Some? <==> |b| >= BodySizeFor(t)
    ensures r.Some? ==> r.value == DecodeBody(t, b[..BodySizeFor(t)])
  {
    hide LeValue;
    if |b| < BodySizeFor(t) { return None; }
    var d := b[..BodySizeFor(t)];
    if t == HEARTBEAT { return Some(Heartbeat); }
    var symbol := LoadLe(d, 0, 4);
    if t == BOOK_SNAPSHOT {
      var nb := LoadLe(d, 4, 1);
      var na := LoadLe(d, 5, 1);
      var bids, off := ReadLevels(d, 8);
      var asks, _ := ReadLevels(d, off);
      return Some(BookSnapshot(symbol, nb, na, bids, asks));
    }
    var id := LoadLe(d, 4, 8);
    if t == CANCEL_ORDER { return Some(CancelOrder(symbol, id)); }
    if t == ADD_ORDER {
      var side := LoadLe(d, 12, 1);
      var price := LoadLe(d, 13, 8);
      var qty := LoadLe(d, 21, 4);
      return Some(AddOrder(symbol, id, side, ToSigned64(price), qty));
    }
    var price := LoadLe(d, 12, 8);
    var qty := LoadLe(d, 20, 4);
    if t == MODIFY_ORDER { return Some(ModifyOrder(symbol, id, ToSigned64(price), qty)); }
    var side := LoadLe(d, 24, 1);
    r := Some(Trade(symbol, id, ToSigned64(price), qty, side));
  }
}
