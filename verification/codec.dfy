/** The encoder side of the wire format, and the proof that each decoder and its encoder are
    inverse bijections between valid records and message values. */
module Codec {
  import opened Bytes
  import opened MessageTable
  import opened Messages

  // --------------------------------------------------------------------------------------------
  // The builder
  // --------------------------------------------------------------------------------------------

  /** RecordBuilder: grows a record one field at a time, independently of the reader's byte swap. */
  class RecordBuilder {
    var bytes: seq<Byte>

    constructor ()
      ensures bytes == []
    {
      bytes := [];
    }

    method U8(value: Byte)
      modifies this
      ensures bytes == old(bytes) + [value]
    {
      bytes := bytes + [value];
    }

    // Emits the low `width` bytes of `value`, most significant first, by explicit shifts.
    method BigEndian(value: U64, width: nat)
      modifies this
      ensures bytes == old(bytes) + BigEndianBytes(value, width)
    {
      var i: nat := width;
      while i > 0
        invariant i <= width
        invariant bytes + BigEndianBytes(value, i) == old(bytes) + BigEndianBytes(value, width)
      {
        i := i - 1;
        U8(value / Pow256(i) % 256);
      }
    }

    // A text field: exactly `width` bytes, filled up with spaces or cut off.
    method Alpha(text: seq<Byte>, width: nat)
      modifies this
      ensures bytes == old(bytes) + Ljust(text, width)[..width]
    {
      for i := 0 to width
        invariant bytes == old(bytes) + Ljust(text, width)[..i]
      {
        U8(if i < |text| then text[i] else SPACE);
      }
    }

    // The record behind its two-byte big-endian length prefix; the length is truncated to 16 bits.
    method FramedBytes() returns (out: seq<Byte>)
      ensures out == BigEndianBytes(|bytes| % TWO_TO_THE_16, 2) + bytes
      ensures |bytes| < TWO_TO_THE_16 ==> out == Framed(bytes)
    {
      hide BigEndianBytes;
      var length := |bytes| % TWO_TO_THE_16;
      TwoBytes(length);
      out := [length / 256 % 256, length % 256] + bytes;
    }
  }

  function Framed(record: seq<Byte>): (bytes: seq<Byte>)
    ensures |bytes| == |record| + 2
  {
    BigEndianBytes(|record|, 2) + record
  }

  // --------------------------------------------------------------------------------------------
  // Encoders: the builder chain of each message type
  // --------------------------------------------------------------------------------------------

  function SideByte(side: Side): Byte {
    if side.Buy? then BUY else SELL
  }

  function EncodeHeader(h: Header): (r: seq<Byte>)
    ensures |r| == HEADER_LENGTH
  {
    [h.messageType] + BigEndianBytes(h.locate, 2) + BigEndianBytes(h.tracking, 2) + BigEndianBytes(h.timestamp, 6)
  }

  function EncodeAddOrder(a: AddOrder): seq<Byte> {
    EncodeHeader(a.header) + BigEndianBytes(a.reference, 8) + [SideByte(a.side)] + BigEndianBytes(a.shares, 4)
    + a.stock + BigEndianBytes(a.price, 4)
  }

  function EncodeOrderExecuted(e: OrderExecuted): seq<Byte> {
    EncodeHeader(e.header) + BigEndianBytes(e.reference, 8) + BigEndianBytes(e.executedShares, 4)
    + BigEndianBytes(e.matchNumber, 8)
  }

  function EncodeStockDirectory(d: StockDirectory): seq<Byte> {
    EncodeHeader(d.header) + d.stock + [d.marketCategory, d.financialStatus] + BigEndianBytes(d.roundLotSize, 4)
    + [d.roundLotsOnly, d.issueClassification] + d.issueSubType
    + [d.authenticity, d.shortSaleThreshold, d.ipoFlag, d.luldTier, d.etpFlag] + BigEndianBytes(d.etpLeverage, 4)
    + [d.inverseIndicator]
  }

  function Encode(m: Message): seq<Byte> {
    match m
    case SystemEventMessage(e) => EncodeHeader(e.header) + [e.eventCode]
    case AddMessage(a) => EncodeAddOrder(a)
    case AddWithMpidMessage(a) => EncodeAddOrder(a.order) + a.attribution
    case ExecutedMessage(e) => EncodeOrderExecuted(e)
    case ExecutedWithPriceMessage(e) =>
      EncodeOrderExecuted(e.executed) + [e.printable] + BigEndianBytes(e.executionPrice, 4)
    case CancelMessage(c) =>
      EncodeHeader(c.header) + BigEndianBytes(c.reference, 8) + BigEndianBytes(c.cancelledShares, 4)
    case DeleteMessage(d) => EncodeHeader(d.header) + BigEndianBytes(d.reference, 8)
    case ReplaceMessage(u) =>
      EncodeHeader(u.header) + BigEndianBytes(u.original, 8) + BigEndianBytes(u.replacement, 8)
      + BigEndianBytes(u.shares, 4) + BigEndianBytes(u.price, 4)
    case TradeMessage(t) =>
      EncodeAddOrder(AddOrder(t.header, t.reference, t.side, t.shares, t.stock, t.price))
      + BigEndianBytes(t.matchNumber, 8)
    case DirectoryMessage(d) => EncodeStockDirectory(d)
    case OtherMessage(_, record) => record
  }

  /** The message values that some valid record decodes to: the constructor is the one dispatch
      picks for the header's type byte. */
  predicate ValidMessage(m: Message) {
    match m
    case SystemEventMessage(e) => e.header.messageType == SYSTEM_EVENT
    case AddMessage(a) => a.header.messageType == ADD_ORDER
    case AddWithMpidMessage(a) => a.order.header.messageType == ADD_WITH_MPID
    case ExecutedMessage(e) => e.header.messageType == ORDER_EXECUTED
    case ExecutedWithPriceMessage(e) => e.executed.header.messageType == EXECUTED_WITH_PRICE
    case CancelMessage(c) => c.header.messageType == ORDER_CANCEL
    case DeleteMessage(d) => d.header.messageType == ORDER_DELETE
    case ReplaceMessage(u) => u.header.messageType == ORDER_REPLACE
    case TradeMessage(t) => t.header.messageType == TRADE_NON_CROSS
    case DirectoryMessage(d) => d.header.messageType == STOCK_DIRECTORY
    case OtherMessage(t, record) =>
      ValidRecord(record) && record[0] == t && !IsDecoded(t)
  }

  // header(): the eleven bytes every record starts with, from a fresh builder.
  method BuildHeader(h: Header) returns (builder: RecordBuilder)
    ensures fresh(builder) && builder.bytes == EncodeHeader(h)
  {
    builder := new RecordBuilder();
    builder.U8(h.messageType);
    builder.BigEndian(h.locate, 2);
    builder.BigEndian(h.tracking, 2);
    builder.BigEndian(h.timestamp, 6);
  }

  // --------------------------------------------------------------------------------------------
  // Field by field
  // --------------------------------------------------------------------------------------------

  // Records are rebuilt left to right, one field at a time.
  lemma Join(r: seq<Byte>, j: nat, k: nat)
    requires j <= k <= |r|
    ensures r[..j] + r[j..k] == r[..k]
  {
  }

  lemma ReadBack(r: seq<Byte>, offset: nat, width: nat, value: nat)
    requires offset + width <= |r|
    requires r[offset..offset + width] == BigEndianBytes(value, width) && value < Pow256(width)
    ensures LoadBigEndian(r[offset..offset + width]) == value
    ensures width == 6 ==> LoadU48(r[offset..offset + width]) == value
  {
    FieldRoundTrip(value, width);
    LoadIsPositional(r[offset..offset + width]);
    if width == 6 {
      LoadU48IsPositional(r[offset..offset + width]);
    }
  }

  /** A slice read as a number and written again is the slice. */
  lemma WriteBack(r: seq<Byte>, offset: nat, width: nat)
    requires offset + width <= |r|
    ensures BigEndianBytes(LoadBigEndian(r[offset..offset + width]), width) == r[offset..offset + width]
    ensures width == 6 ==> BigEndianBytes(LoadU48(r[offset..offset + width]), width) == r[offset..offset + width]
  {
    LoadIsPositional(r[offset..offset + width]);
    DecodeThenEncode(r[offset..offset + width]);
    if width == 6 {
      LoadU48IsPositional(r[offset..offset + width]);
    }
  }

  lemma HeaderReadBack(h: Header, r: seq<Byte>)
    requires |r| >= HEADER_LENGTH && r[..HEADER_LENGTH] == EncodeHeader(h)
    ensures DecodeHeader(r) == h
  {
    hide BigEndianBytes, LoadBigEndian, LoadU48, Pow256;
    Pow256Widths();
    var e := EncodeHeader(h);
    assert r[0] == e[0];
    assert r[1..3] == e[1..3] == BigEndianBytes(h.locate, 2);
    assert r[3..5] == e[3..5] == BigEndianBytes(h.tracking, 2);
    assert r[5..11] == e[5..11] == BigEndianBytes(h.timestamp, 6);
    ReadBack(r, 1, 2, h.locate);
    ReadBack(r, 3, 2, h.tracking);
    ReadBack(r, 5, 6, h.timestamp);
  }

  lemma HeaderWriteBack(r: seq<Byte>)
    requires |r| >= HEADER_LENGTH
    ensures EncodeHeader(DecodeHeader(r)) == r[..HEADER_LENGTH]
  {
    hide BigEndianBytes, LoadBigEndian, LoadU48, Pow256;
    WriteBack(r, 1, 2);
    WriteBack(r, 3, 2);
    WriteBack(r, 5, 6);
  }

  // The first 36 bytes of A, F and P are laid out alike.
  lemma AddReadBack(a: AddOrder, r: seq<Byte>)
    requires |r| >= 36 && r[..36] == EncodeAddOrder(a)
    ensures DecodeHeader(r) == a.header && ReadU64(r, 11) == a.reference && r[19] == SideByte(a.side)
    ensures ReadU32(r, 20) == a.shares && r[24..32] == a.stock && ReadU32(r, 32) == a.price
  {
    hide BigEndianBytes, LoadBigEndian, LoadU48, Pow256;
    Pow256Widths();
    var e := EncodeAddOrder(a);
    assert r[..11] == e[..11] == EncodeHeader(a.header);
    HeaderReadBack(a.header, r);
    assert r[11..19] == e[11..19] == BigEndianBytes(a.reference, 8);
    assert r[19] == e[19];
    assert r[20..24] == e[20..24] == BigEndianBytes(a.shares, 4);
    assert r[24..32] == e[24..32] == a.stock;
    assert r[32..36] == e[32..36] == BigEndianBytes(a.price, 4);
    ReadBack(r, 11, 8, a.reference);
    ReadBack(r, 20, 4, a.shares);
    ReadBack(r, 32, 4, a.price);
  }

  lemma AddWriteBack(r: seq<Byte>)
    requires |r| >= 36 && IsValidSide(r[19])
    ensures EncodeAddOrder(AddOrder(DecodeHeader(r), ReadU64(r, 11), ReadSide(r, 19), ReadU32(r, 20), r[24..32],
                                    ReadU32(r, 32))) == r[..36]
  {
    hide BigEndianBytes, LoadBigEndian, LoadU48, Pow256;
    HeaderWriteBack(r);
    WriteBack(r, 11, 8);
    Join(r, 11, 19);
    assert [SideByte(ReadSide(r, 19))] == r[19..20];
    Join(r, 19, 20);
    WriteBack(r, 20, 4);
    Join(r, 20, 24);
    Join(r, 24, 32);
    WriteBack(r, 32, 4);
    Join(r, 32, 36);
  }

  // E and C share their first 31 bytes.
  lemma ExecutedReadBack(e: OrderExecuted, r: seq<Byte>)
    requires |r| >= 31 && r[..31] == EncodeOrderExecuted(e)
    ensures OrderExecuted(DecodeHeader(r), ReadU64(r, 11), ReadU32(r, 19), ReadU64(r, 23)) == e
  {
    hide BigEndianBytes, LoadBigEndian, LoadU48, Pow256;
    Pow256Widths();
    var enc := EncodeOrderExecuted(e);
    assert r[..11] == enc[..11] == EncodeHeader(e.header);
    HeaderReadBack(e.header, r);
    assert r[11..19] == enc[11..19] == BigEndianBytes(e.reference, 8);
    assert r[19..23] == enc[19..23] == BigEndianBytes(e.executedShares, 4);
    assert r[23..31] == enc[23..31] == BigEndianBytes(e.matchNumber, 8);
    ReadBack(r, 11, 8, e.reference);
    ReadBack(r, 19, 4, e.executedShares);
    ReadBack(r, 23, 8, e.matchNumber);
  }

  lemma ExecutedWriteBack(r: seq<Byte>)
    requires |r| >= 31
    ensures EncodeOrderExecuted(OrderExecuted(DecodeHeader(r), ReadU64(r, 11), ReadU32(r, 19), ReadU64(r, 23)))
         == r[..31]
  {
    hide BigEndianBytes, LoadBigEndian, LoadU48, Pow256;
    HeaderWriteBack(r);
    WriteBack(r, 11, 8);
    Join(r, 11, 19);
    WriteBack(r, 19, 4);
    Join(r, 19, 23);
    WriteBack(r, 23, 8);
    Join(r, 23, 31);
  }

  lemma ReplaceReadBack(u: OrderReplace, r: seq<Byte>)
    requires u.header.messageType == ORDER_REPLACE && r == Encode(ReplaceMessage(u))
    ensures |r| == SpecLength(ORDER_REPLACE) && r[0] == ORDER_REPLACE && DecodeOrderReplace(r) == u
  {
    hide BigEndianBytes, LoadBigEndian, LoadU48, Pow256;
    Pow256Widths();
    assert r[..11] == EncodeHeader(u.header);
    HeaderReadBack(u.header, r);
    assert r[11..19] == BigEndianBytes(u.original, 8);
    assert r[19..27] == BigEndianBytes(u.replacement, 8);
    assert r[27..31] == BigEndianBytes(u.shares, 4);
    assert r[31..35] == BigEndianBytes(u.price, 4);
    ReadBack(r, 11, 8, u.original);
    ReadBack(r, 19, 8, u.replacement);
    ReadBack(r, 27, 4, u.shares);
    ReadBack(r, 31, 4, u.price);
  }

  lemma ReplaceWriteBack(r: seq<Byte>)
    requires |r| == SpecLength(ORDER_REPLACE)
    ensures Encode(ReplaceMessage(DecodeOrderReplace(r))) == r
  {
    hide BigEndianBytes, LoadBigEndian, LoadU48, Pow256;
    HeaderWriteBack(r);
    WriteBack(r, 11, 8);
    Join(r, 11, 19);
    WriteBack(r, 19, 8);
    Join(r, 19, 27);
    WriteBack(r, 27, 4);
    Join(r, 27, 31);
    WriteBack(r, 31, 4);
    Join(r, 31, 35);
  }

  lemma DirectoryReadBack(d: StockDirectory, r: seq<Byte>)
    requires d.header.messageType == STOCK_DIRECTORY && r == EncodeStockDirectory(d)
    ensures |r| == SpecLength(STOCK_DIRECTORY) && r[0] == STOCK_DIRECTORY && DecodeStockDirectory(r) == d
  {
    hide BigEndianBytes, LoadBigEndian, LoadU48, Pow256;
    Pow256Widths();
    assert r[..11] == EncodeHeader(d.header);
    HeaderReadBack(d.header, r);
    assert r[11..19] == d.stock;
    assert r[21..25] == BigEndianBytes(d.roundLotSize, 4);
    assert r[27..29] == d.issueSubType;
    assert r[34..38] == BigEndianBytes(d.etpLeverage, 4);
    ReadBack(r, 21, 4, d.roundLotSize);
    ReadBack(r, 34, 4, d.etpLeverage);
  }

  lemma DirectoryWriteBack(r: seq<Byte>)
    requires |r| == SpecLength(STOCK_DIRECTORY)
    ensures EncodeStockDirectory(DecodeStockDirectory(r)) == r
  {
    HeaderWriteBack(r);
    Join(r, 11, 19);
    Join(r, 19, 21);
    assert r[19..21] == [r[19], r[20]];
    WriteBack(r, 21, 4);
    Join(r, 21, 25);
    Join(r, 25, 27);
    assert r[25..27] == [r[25], r[26]];
    Join(r, 27, 29);
    Join(r, 29, 34);
    assert r[29..34] == [r[29], r[30], r[31], r[32], r[33]];
    WriteBack(r, 34, 4);
    Join(r, 34, 38);
    Join(r, 38, 39);
    assert r[38..39] == [r[38]];
  }

  lemma CancelReadBack(c: OrderCancel, r: seq<Byte>)
    requires c.header.messageType == ORDER_CANCEL && r == Encode(CancelMessage(c))
    ensures |r| == SpecLength(ORDER_CANCEL) && r[0] == ORDER_CANCEL && DecodeOrderCancel(r) == c
  {
    Pow256Widths();
    assert r[..11] == EncodeHeader(c.header);
    HeaderReadBack(c.header, r);
    assert r[11..19] == BigEndianBytes(c.reference, 8);
    assert r[19..23] == BigEndianBytes(c.cancelledShares, 4);
    ReadBack(r, 11, 8, c.reference);
    ReadBack(r, 19, 4, c.cancelledShares);
  }

  lemma DeleteReadBack(d: OrderDelete, r: seq<Byte>)
    requires d.header.messageType == ORDER_DELETE && r == Encode(DeleteMessage(d))
    ensures |r| == SpecLength(ORDER_DELETE) && r[0] == ORDER_DELETE && DecodeOrderDelete(r) == d
  {
    Pow256Widths();
    assert r[..11] == EncodeHeader(d.header);
    HeaderReadBack(d.header, r);
    assert r[11..19] == BigEndianBytes(d.reference, 8);
    ReadBack(r, 11, 8, d.reference);
  }

  lemma CancelWriteBack(r: seq<Byte>)
    requires |r| == SpecLength(ORDER_CANCEL)
    ensures Encode(CancelMessage(DecodeOrderCancel(r))) == r
  {
    HeaderWriteBack(r);
    WriteBack(r, 11, 8);
    Join(r, 11, 19);
    WriteBack(r, 19, 4);
    Join(r, 19, 23);
  }

  lemma DeleteWriteBack(r: seq<Byte>)
    requires |r| == SpecLength(ORDER_DELETE)
    ensures Encode(DeleteMessage(DecodeOrderDelete(r))) == r
  {
    HeaderWriteBack(r);
    WriteBack(r, 11, 8);
    Join(r, 11, 19);
  }

  lemma EventWriteBack(r: seq<Byte>)
    requires |r| == SpecLength(SYSTEM_EVENT)
    ensures Encode(SystemEventMessage(DecodeSystemEvent(r))) == r
  {
    HeaderWriteBack(r);
    Join(r, 11, 12);
    assert r[11..12] == [r[11]];
  }

  lemma AddFamilyReadBack(m: Message, a: AddOrder)
    requires ValidMessage(m)
    requires match m
             case AddMessage(x) => a == x
             case AddWithMpidMessage(x) => a == x.order
             case TradeMessage(t) => a == AddOrder(t.header, t.reference, t.side, t.shares, t.stock, t.price)
             case _ => false
    ensures var r := Encode(m);
            ValidRecord(r) && SideByteOk(r) && r[0] == HeaderOf(m).messageType && Decode(r) == m
  {
    hide BigEndianBytes, LoadBigEndian, LoadU48, Pow256;
    var r := Encode(m);
    assert r[..36] == EncodeAddOrder(a);
    AddReadBack(a, r);
    match m
    case AddMessage(_) =>
    case AddWithMpidMessage(x) =>
      assert r[36..40] == x.attribution;
    case TradeMessage(t) =>
      assert r[36..44] == BigEndianBytes(t.matchNumber, 8);
      Pow256Widths();
      ReadBack(r, 36, 8, t.matchNumber);
  }

  lemma AddFamilyWriteBack(r: seq<Byte>)
    requires ValidRecord(r) && SideByteOk(r) && HasSideByte(r[0])
    ensures Encode(Decode(r)) == r
  {
    hide BigEndianBytes, LoadBigEndian, LoadU48, Pow256;
    AddWriteBack(r);
    if r[0] == ADD_ORDER {
      assert r[..36] == r;
    } else if r[0] == ADD_WITH_MPID {
      Join(r, 36, 40);
    } else {
      WriteBack(r, 36, 8);
      Join(r, 36, 44);
    }
  }

  lemma ExecutedFamilyReadBack(m: Message, e: OrderExecuted)
    requires ValidMessage(m)
    requires m == ExecutedMessage(e) || (m.ExecutedWithPriceMessage? && m.executedWithPrice.executed == e)
    ensures var r := Encode(m);
            ValidRecord(r) && r[0] == HeaderOf(m).messageType && Decode(r) == m
  {
    hide BigEndianBytes, LoadBigEndian, LoadU48, Pow256;
    var r := Encode(m);
    assert r[..31] == EncodeOrderExecuted(e);
    ExecutedReadBack(e, r);
    if m.ExecutedWithPriceMessage? {
      assert r[32..36] == BigEndianBytes(m.executedWithPrice.executionPrice, 4);
      Pow256Widths();
      ReadBack(r, 32, 4, m.executedWithPrice.executionPrice);
    }
  }

  lemma ExecutedFamilyWriteBack(r: seq<Byte>)
    requires ValidRecord(r) && (r[0] == ORDER_EXECUTED || r[0] == EXECUTED_WITH_PRICE)
    ensures Encode(Decode(r)) == r
  {
    hide BigEndianBytes, LoadBigEndian, LoadU48, Pow256;
    ExecutedWriteBack(r);
    if r[0] == ORDER_EXECUTED {
      assert r[..31] == r;
    } else {
      Join(r, 31, 32);
      assert r[31..32] == [r[31]];
      WriteBack(r, 32, 4);
      Join(r, 32, 36);
    }
  }

  // --------------------------------------------------------------------------------------------
  // The bijection
  // --------------------------------------------------------------------------------------------

  /** Every message value is what its own encoding decodes to. */
  lemma EncodeThenDecodeMessage(m: Message)
    requires ValidMessage(m)
    ensures var r := Encode(m);
            ValidRecord(r) && SideByteOk(r) && r[0] == HeaderOf(m).messageType && Decode(r) == m
  {
    hide BigEndianBytes, LoadBigEndian, LoadU48, Pow256;
    match m
    case SystemEventMessage(e) =>
      var r := Encode(m);
      assert r[..11] == EncodeHeader(e.header);
      HeaderReadBack(e.header, r);
    case AddMessage(a) => AddFamilyReadBack(m, a);
    case AddWithMpidMessage(a) => AddFamilyReadBack(m, a.order);
    case ExecutedMessage(e) => ExecutedFamilyReadBack(m, e);
    case ExecutedWithPriceMessage(e) => ExecutedFamilyReadBack(m, e.executed);
    case CancelMessage(c) => CancelReadBack(c, Encode(m));
    case DeleteMessage(d) => DeleteReadBack(d, Encode(m));
    case ReplaceMessage(u) => ReplaceReadBack(u, Encode(m));
    case TradeMessage(t) =>
      AddFamilyReadBack(m, AddOrder(t.header, t.reference, t.side, t.shares, t.stock, t.price));
    case DirectoryMessage(d) => DirectoryReadBack(d, Encode(m));
    case OtherMessage(_, _) =>
  }

  /** The fields a decoder reads tile its record: nothing is skipped, nothing is read twice, so
      writing them back gives the record, exactly when its side byte is one of the two. */
  lemma DecodeThenEncodeMessage(r: seq<Byte>)
    requires ValidRecord(r)
    ensures Encode(Decode(r)) == r <==> SideByteOk(r)
    ensures ValidMessage(Decode(r))
  {
    hide Encode;
    DecodedIsValid(r);
    EncodeThenDecodeMessage(Decode(r));
    if SideByteOk(r) {
      RecordWriteBack(r);
    }
  }

  lemma DecodedIsValid(r: seq<Byte>)
    requires ValidRecord(r)
    ensures ValidMessage(Decode(r))
  {
    hide ReadU16, ReadU32, ReadU48, ReadU64;
  }

  lemma RecordWriteBack(r: seq<Byte>)
    requires ValidRecord(r) && SideByteOk(r)
    ensures Encode(Decode(r)) == r
  {
    if HasSideByte(r[0]) {
      AddFamilyWriteBack(r);
    } else if r[0] == ORDER_EXECUTED || r[0] == EXECUTED_WITH_PRICE {
      ExecutedFamilyWriteBack(r);
    } else if r[0] == ORDER_CANCEL {
      CancelWriteBack(r);
    } else if r[0] == ORDER_DELETE {
      DeleteWriteBack(r);
    } else if r[0] == SYSTEM_EVENT {
      EventWriteBack(r);
    } else if r[0] == ORDER_REPLACE {
      ReplaceWriteBack(r);
    } else if r[0] == STOCK_DIRECTORY {
      DirectoryWriteBack(r);
    }
  }

  /** An F record is an A record with four more bytes: its order is what its first 36 bytes decode
      to, up to the type byte. */
  lemma MpidExtendsAdd(r: seq<Byte>)
    requires ValidRecord(r) && SideByteOk(r) && r[0] == ADD_WITH_MPID
    ensures var asAdd := r[..36][0 := ADD_ORDER];
            var order := DecodeAddOrderWithMpid(r).order;
            ValidRecord(asAdd) && SideByteOk(asAdd)
            && Decode(asAdd) == AddMessage(order.(header := order.header.(messageType := ADD_ORDER)))
  {
    var asAdd := r[..36][0 := ADD_ORDER];
    assert asAdd[1..3] == r[1..3] && asAdd[3..5] == r[3..5] && asAdd[5..11] == r[5..11];
    assert asAdd[11..19] == r[11..19] && asAdd[20..24] == r[20..24];
    assert asAdd[24..32] == r[24..32] && asAdd[32..36] == r[32..36];
  }
}
