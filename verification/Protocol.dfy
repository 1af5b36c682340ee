/** The decoded message types, the size constants and the integer widths of the wire protocol
    (include/mdfh/types.hpp, include/mdfh/protocol.hpp).

    Field values are plain integers here; `Fits` says when each lies in the width its C++ type gives it.
    A side is carried as its raw byte, because a decoder never checks it and the book treats every
    value other than BUY as the ask side. */
module Protocol {
  type byte = x: int | 0 <= x < 256

  const TWO16: int := 0x1_0000
  const TWO32: int := 0x1_0000_0000
  const TWO63: int := 0x8000_0000_0000_0000
  const TWO64: int := 0x1_0000_0000_0000_0000

  const BUY: nat := 0
  const SELL: nat := 1

  const PROTOCOL_VERSION: nat := 1
  const HEADER_WIRE_SIZE: nat := 16
  const MAX_SNAPSHOT_LEVELS: nat := 5
  const SNAPSHOT_BODY_SIZE: nat := 8 + 2 * MAX_SNAPSHOT_LEVELS * 12
  const MAX_MESSAGE_SIZE: nat := HEADER_WIRE_SIZE + SNAPSHOT_BODY_SIZE

  const HEARTBEAT: nat := 0
  const ADD_ORDER: nat := 1
  const CANCEL_ORDER: nat := 2
  const MODIFY_ORDER: nat := 3
  const TRADE: nat := 4
  const BOOK_SNAPSHOT: nat := 5

  datatype Option<+T> = None | Some(value: T)

  datatype Header = Header(msgType: nat, version: nat, bodySize: nat, sequence: nat, timestamp: nat)

  datatype SnapshotLevel = SnapshotLevel(price: int, quantity: nat)

  datatype Body =
    | Heartbeat
    | AddOrder(symbol: nat, orderId: nat, side: nat, price: int, quantity: nat)
    | CancelOrder(symbol: nat, orderId: nat)
    | ModifyOrder(symbol: nat, orderId: nat, newPrice: int, newQuantity: nat)
    | Trade(symbol: nat, restingOrderId: nat, price: int, quantity: nat, aggressorSide: nat)
    | BookSnapshot(symbol: nat, numBidLevels: nat, numAskLevels: nat,
                   bids: seq<SnapshotLevel>, asks: seq<SnapshotLevel>)

  /** A message as the parser dispatches it. The type, version and body size of its header are
      those of the body, so the header adds only these two numbers. */
  datatype Message = Message(sequence: nat, timestamp: nat, body: Body)

  predicate IsValidMsgType(v: nat) {
    v <= BOOK_SNAPSHOT
  }

  function BodySizeFor(t: nat): nat {
    if t == ADD_ORDER then 25
    else if t == CANCEL_ORDER then 12
    else if t == MODIFY_ORDER then 24
    else if t == TRADE then 25
    else if t == BOOK_SNAPSHOT then SNAPSHOT_BODY_SIZE
    else 0
  }

  function TypeOf(b: Body): nat {
    match b
    case Heartbeat => HEARTBEAT
    case AddOrder(_, _, _, _, _) => ADD_ORDER
    case CancelOrder(_, _) => CANCEL_ORDER
    case ModifyOrder(_, _, _, _) => MODIFY_ORDER
    case Trade(_, _, _, _, _) => TRADE
    case BookSnapshot(_, _, _, _, _) => BOOK_SNAPSHOT
  }

  /** The number of bytes one message occupies on the wire. */
  function FrameSize(b: Body): nat {
    HEADER_WIRE_SIZE + BodySizeFor(TypeOf(b))
  }

  predicate PriceFits(p: int) {
    -TWO63 <= p < TWO63
  }

  predicate LevelsFit(ls: seq<SnapshotLevel>) {
    |ls| == MAX_SNAPSHOT_LEVELS
    && forall i :: 0 <= i < |ls| ==> PriceFits(ls[i].price) && ls[i].quantity < TWO32
  }

  predicate BodyFits(b: Body) {
    match b
    case Heartbeat => true
    case AddOrder(s, id, side, p, q) => s < TWO32 && id < TWO64 && side < 256 && PriceFits(p) && q < TWO32
    case CancelOrder(s, id) => s < TWO32 && id < TWO64
    case ModifyOrder(s, id, p, q) => s < TWO32 && id < TWO64 && PriceFits(p) && q < TWO32
    case Trade(s, id, p, q, side) => s < TWO32 && id < TWO64 && PriceFits(p) && q < TWO32 && side < 256
    case BookSnapshot(s, nb, na, bids, asks) =>
      s < TWO32 && nb < 256 && na < 256 && LevelsFit(bids) && LevelsFit(asks)
  }

  predicate Fits(m: Message) {
    m.sequence < TWO32 && m.timestamp < TWO64 && BodyFits(m.body)
  }

  /** Reducing a summand first changes nothing: counters may wrap as they go. */
  lemma AddWraps(a: nat, b: nat)
    ensures (a % TWO64 + b) % TWO64 == (a + b) % TWO64
  {
    assert a + b == (a % TWO64 + b) + TWO64 * (a / TWO64);
  }
}
