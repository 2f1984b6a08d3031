/** Decoded messages, the decoders that read them at fixed offsets, and the encoder side of the
    wire format. */
module Messages {
  import opened Bytes
  import opened MessageTable

  datatype Side = Buy | Sell

  const BUY: Byte := 0x42   // 'B'
  const SELL: Byte := 0x53  // 'S'
  const SPACE: Byte := 0x20

  type Stock = s: seq<Byte> | |s| == 8 witness [0, 0, 0, 0, 0, 0, 0, 0]
  type Mpid = s: seq<Byte> | |s| == 4 witness [0, 0, 0, 0]
  type SubType = s: seq<Byte> | |s| == 2 witness [0, 0]

  datatype Header = Header(messageType: Byte, locate: U16, tracking: U16, timestamp: U48)

  datatype SystemEvent = SystemEvent(header: Header, eventCode: Byte)
  datatype AddOrder = AddOrder(header: Header, reference: U64, side: Side, shares: U32, stock: Stock, price: U32)
  datatype AddOrderWithMpid = AddOrderWithMpid(order: AddOrder, attribution: Mpid)
  datatype OrderExecuted = OrderExecuted(header: Header, reference: U64, executedShares: U32, matchNumber: U64)
  datatype OrderExecutedWithPrice =
    OrderExecutedWithPrice(executed: OrderExecuted, printable: Byte, executionPrice: U32)
  datatype OrderCancel = OrderCancel(header: Header, reference: U64, cancelledShares: U32)
  datatype OrderDelete = OrderDelete(header: Header, reference: U64)
  datatype OrderReplace = OrderReplace(header: Header, original: U64, replacement: U64, shares: U32, price: U32)
  datatype TradeNonCross =
    TradeNonCross(header: Header, reference: U64, side: Side, shares: U32, stock: Stock, price: U32, matchNumber: U64)
  datatype StockDirectory = StockDirectory(
    header: Header, stock: Stock, marketCategory: Byte, financialStatus: Byte, roundLotSize: U32,
    roundLotsOnly: Byte, issueClassification: Byte, issueSubType: SubType, authenticity: Byte,
    shortSaleThreshold: Byte, ipoFlag: Byte, luldTier: Byte, etpFlag: Byte, etpLeverage: U32,
    inverseIndicator: Byte)

  /** One delivery to a handler: a decoded message, or the raw bytes of a type nothing decodes. */
  datatype Message =
    | SystemEventMessage(systemEvent: SystemEvent)
    | AddMessage(add: AddOrder)
    | AddWithMpidMessage(addWithMpid: AddOrderWithMpid)
    | ExecutedMessage(executed: OrderExecuted)
    | ExecutedWithPriceMessage(executedWithPrice: OrderExecutedWithPrice)
    | CancelMessage(cancel: OrderCancel)
    | DeleteMessage(deletion: OrderDelete)
    | ReplaceMessage(replace: OrderReplace)
    | TradeMessage(trade: TradeNonCross)
    | DirectoryMessage(directory: StockDirectory)
    | OtherMessage(messageType: Byte, record: seq<Byte>)

  // --------------------------------------------------------------------------------------------
  // Reading fields
  // --------------------------------------------------------------------------------------------

  function ReadU16(r: seq<Byte>, offset: nat): U16
    requires offset + 2 <= |r|
  {
    LoadIsPositional(r[offset..offset + 2]);
    Pow256Widths();
    LoadBigEndian(r[offset..offset + 2])
  }

  function ReadU32(r: seq<Byte>, offset: nat): U32
    requires offset + 4 <= |r|
  {
    LoadIsPositional(r[offset..offset + 4]);
    Pow256Widths();
    LoadBigEndian(r[offset..offset + 4])
  }

  function ReadU48(r: seq<Byte>, offset: nat): U48
    requires offset + 6 <= |r|
  {
    LoadU48IsPositional(r[offset..offset + 6]);
    LoadU48(r[offset..offset + 6])
  }

  function ReadU64(r: seq<Byte>, offset: nat): U64
    requires offset + 8 <= |r|
  {
    LoadIsPositional(r[offset..offset + 8]);
    Pow256Widths();
    LoadBigEndian(r[offset..offset + 8])
  }

  predicate IsValidSide(b: Byte) {
    b == BUY || b == SELL
  }

  // static_cast<Side>. The decoders assert that the byte is valid (SideByteOk); a book takes any byte
  // that is not Buy for the asks.
  function ReadSide(r: seq<Byte>, offset: nat): Side
    requires offset < |r|
  {
    if r[offset] == BUY then Buy else Sell
  }

  /** What frame_all guarantees of every record it delivers: its length is the one the standard
      gives for its type byte. */
  predicate ValidRecord(r: seq<Byte>) {
    r != [] && |r| == SpecLength(r[0])
  }

  /** What the decoders assert beyond the length: the side byte of A, F and P. */
  predicate SideByteOk(r: seq<Byte>) {
    r != [] && HasSideByte(r[0]) ==> |r| > 19 && IsValidSide(r[19])
  }

  /** Everything the decoder that dispatch picks for a record asserts; on_other asserts nothing. */
  predicate DecoderAssertsHold(r: seq<Byte>) {
    r != [] && (IsDecoded(r[0]) ==> |r| == SpecLength(r[0]) && SideByteOk(r))
  }

  predicate HasSideByte(messageType: Byte) {
    messageType == ADD_ORDER || messageType == ADD_WITH_MPID || messageType == TRADE_NON_CROSS
  }

  // --------------------------------------------------------------------------------------------
  // Decoders
  // --------------------------------------------------------------------------------------------

  function DecodeHeader(r: seq<Byte>): Header
    requires HEADER_LENGTH <= |r|
  {
    Header(r[0], ReadU16(r, 1), ReadU16(r, 3), ReadU48(r, 5))
  }

  function DecodeSystemEvent(r: seq<Byte>): SystemEvent
    requires |r| == SpecLength(SYSTEM_EVENT)
  {
    SystemEvent(DecodeHeader(r), r[11])
  }

  function DecodeAddOrder(r: seq<Byte>): AddOrder
    requires |r| == SpecLength(ADD_ORDER)
  {
    AddOrder(DecodeHeader(r), ReadU64(r, 11), ReadSide(r, 19), ReadU32(r, 20), r[24..32], ReadU32(r, 32))
  }

  function DecodeAddOrderWithMpid(r: seq<Byte>): AddOrderWithMpid
    requires |r| == SpecLength(ADD_WITH_MPID)
  {
    AddOrderWithMpid(
      AddOrder(DecodeHeader(r), ReadU64(r, 11), ReadSide(r, 19), ReadU32(r, 20), r[24..32], ReadU32(r, 32)),
      r[36..40])
  }

  function DecodeOrderExecuted(r: seq<Byte>): OrderExecuted
    requires |r| == SpecLength(ORDER_EXECUTED)
  {
    OrderExecuted(DecodeHeader(r), ReadU64(r, 11), ReadU32(r, 19), ReadU64(r, 23))
  }

  function DecodeOrderExecutedWithPrice(r: seq<Byte>): OrderExecutedWithPrice
    requires |r| == SpecLength(EXECUTED_WITH_PRICE)
  {
    OrderExecutedWithPrice(
      OrderExecuted(DecodeHeader(r), ReadU64(r, 11), ReadU32(r, 19), ReadU64(r, 23)), r[31], ReadU32(r, 32))
  }

  function DecodeOrderCancel(r: seq<Byte>): OrderCancel
    requires |r| == SpecLength(ORDER_CANCEL)
  {
    OrderCancel(DecodeHeader(r), ReadU64(r, 11), ReadU32(r, 19))
  }

  function DecodeOrderDelete(r: seq<Byte>): OrderDelete
    requires |r| == SpecLength(ORDER_DELETE)
  {
    OrderDelete(DecodeHeader(r), ReadU64(r, 11))
  }

  function DecodeOrderReplace(r: seq<Byte>): OrderReplace
    requires |r| == SpecLength(ORDER_REPLACE)
  {
    OrderReplace(DecodeHeader(r), ReadU64(r, 11), ReadU64(r, 19), ReadU32(r, 27), ReadU32(r, 31))
  }

  function DecodeTradeNonCross(r: seq<Byte>): TradeNonCross
    requires |r| == SpecLength(TRADE_NON_CROSS)
  {
    TradeNonCross(DecodeHeader(r), ReadU64(r, 11), ReadSide(r, 19), ReadU32(r, 20), r[24..32], ReadU32(r, 32),
                  ReadU64(r, 36))
  }

  function DecodeStockDirectory(r: seq<Byte>): StockDirectory
    requires |r| == SpecLength(STOCK_DIRECTORY)
  {
    StockDirectory(DecodeHeader(r), r[11..19], r[19], r[20], ReadU32(r, 21), r[25], r[26], r[27..29], r[29], r[30],
                   r[31], r[32], r[33], ReadU32(r, 34), r[38])
  }

  /** dispatch_record: which decoder a record goes to. */
  function Decode(r: seq<Byte>): Message
    requires ValidRecord(r)
  {
    if r[0] == ADD_ORDER then AddMessage(DecodeAddOrder(r))
    else if r[0] == ORDER_DELETE then DeleteMessage(DecodeOrderDelete(r))
    else if r[0] == ORDER_EXECUTED then ExecutedMessage(DecodeOrderExecuted(r))
    else if r[0] == ORDER_CANCEL then CancelMessage(DecodeOrderCancel(r))
    else if r[0] == ORDER_REPLACE then ReplaceMessage(DecodeOrderReplace(r))
    else if r[0] == ADD_WITH_MPID then AddWithMpidMessage(DecodeAddOrderWithMpid(r))
    else if r[0] == EXECUTED_WITH_PRICE then ExecutedWithPriceMessage(DecodeOrderExecutedWithPrice(r))
    else if r[0] == TRADE_NON_CROSS then TradeMessage(DecodeTradeNonCross(r))
    else if r[0] == SYSTEM_EVENT then SystemEventMessage(DecodeSystemEvent(r))
    else if r[0] == STOCK_DIRECTORY then DirectoryMessage(DecodeStockDirectory(r))
    else OtherMessage(r[0], r)
  }

  // The types that dispatch_record decodes; the rest go to on_other.
  predicate IsDecoded(messageType: Byte) {
    HasSideByte(messageType) || messageType == ORDER_EXECUTED || messageType == EXECUTED_WITH_PRICE
    || messageType == ORDER_CANCEL || messageType == ORDER_DELETE || messageType == ORDER_REPLACE
    || messageType == SYSTEM_EVENT || messageType == STOCK_DIRECTORY
  }

  function HeaderOf(m: Message): Header
    requires m.OtherMessage? ==> |m.record| >= HEADER_LENGTH
  {
    match m
    case SystemEventMessage(e) => e.header
    case AddMessage(a) => a.header
    case AddWithMpidMessage(a) => a.order.header
    case ExecutedMessage(e) => e.header
    case ExecutedWithPriceMessage(e) => e.executed.header
    case CancelMessage(c) => c.header
    case DeleteMessage(d) => d.header
    case ReplaceMessage(u) => u.header
    case TradeMessage(t) => t.header
    case DirectoryMessage(d) => d.header
    case OtherMessage(_, record) => DecodeHeader(record)
  }

  // --------------------------------------------------------------------------------------------
  // Alpha fields
  // --------------------------------------------------------------------------------------------

  // trim: everything up to the last character that is not a space.
  function Trim(field: seq<Byte>): seq<Byte> {
    if field == [] then []
    else if field[|field| - 1] == SPACE then Trim(field[..|field| - 1])
    else field
  }

  // Python's bytes.ljust(width): space-padded on the right, never shortened.
  function Ljust(text: seq<Byte>, width: nat): seq<Byte> {
    text + Spaces(if |text| < width then width - |text| else 0)
  }

  function Spaces(n: nat): (s: seq<Byte>)
    ensures |s| == n && forall i | 0 <= i < n :: s[i] == ' ' as int
  {
    seq(n, _ => ' ' as int)
  }
}
