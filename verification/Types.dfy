/** The exchange's value types: order records, price levels, time-in-force, responses and log entries. */
module Types {
  const TWO32: int := 0x1_0000_0000
  const TWO64: int := 0x1_0000_0000_0000_0000

  type Byte = b: int | 0 <= b < 256
  type u16 = x: int | 0 <= x < 0x1_0000
  type u32 = x: int | 0 <= x < 0x1_0000_0000
  type u64 = x: int | 0 <= x < 0x1_0000_0000_0000_0000

  /** UINT32_MAX: the null slot index, and the limit price of a market buy. */
  const NIL: u32 := 0xFFFF_FFFF

  /** Number of book pointers the engine holds (one per 16-bit stock locate). */
  const MAX_LOCATE: nat := 65536

  datatype Side = Invalid | Buy | Sell

  datatype Status = Open | PartiallyFilled | Filled | Cancelled

  datatype Tif = Day | Ioc | Fok

  /** The fields of an order that describe the order itself. */
  datatype OrderData = OrderData(
    userId: u64, orderId: u64, side: Side, price: u32,
    originalQty: u32, remainingQty: u32, filledQty: u32,
    sequence: u64, status: Status)

  /** A pool slot: the order plus its intrusive links. */
  datatype Order = Order(data: OrderData, prevIdx: u32, nextIdx: u32, poolNextFree: u32)

  datatype PriceLevel = PriceLevel(headIdx: u32, tailIdx: u32, count: u32, totalQty: u32)

  datatype ErrorCode =
    | InvalidSide | InvalidPriceQtyUser | OrderNotFound | InvalidCommandType
    | PoolFull | MktNoLiquidity | FokNoFullFill

  datatype TopOfBook = TopOfBook(bidPrice: u32, bidVolume: u32, askPrice: u32, askVolume: u32)

  datatype Response =
    | RspTrade(locate: nat, orderRef: u64, side: Side, price: u32, quantity: u32)
    | RspOk(okId: u64)
    | RspFilled(filledId: u64)
    | RspCancelled(cancelledId: u64)
    | RspError(code: ErrorCode)
    | RspBook(bookLocate: nat, top: TopOfBook)

  datatype WalEntry = WalEntry(
    kind: int, side: int, locate: u16, price: u32, quantity: u32,
    userId: u64, orderId: u64, walSeq: u64)

  datatype Option<+T> = None | Some(value: T)

  function Wrap32(x: int): (r: u32) { x % 0x1_0000_0000 }

  function Wrap64(x: int): (r: u64) { x % 0x1_0000_0000_0000_0000 }

  function Min(x: u32, y: u32): (r: u32) { if x <= y then x else y }

  /** A freshly built order, as processAdd, processReplace and replay fill it in. */
  function NewOrder(userId: u64, orderId: u64, side: Side, price: u32, qty: u32, sequence: u64): OrderData {
    OrderData(userId, orderId, side, price, qty, qty, 0, sequence, Open)
  }
}
