/** The wire format in letters, offsets and digits: what the decoders read, said without the decoders,
    their constants or the encoders. Offsets and letters are those of Nasdaq TotalView-ITCH 5.0,
    section 4. */
module WireFormat {
  import opened Bytes
  import opened MessageTable
  import opened Messages
  import opened Codec

  /** The unsigned integer in `width` bytes of a record. */
  function Field(r: seq<Byte>, offset: nat, width: nat): nat
    requires offset + width <= |r|
  {
    BigEndianValue(r[offset..offset + width])
  }

  lemma ReadsAreFields(r: seq<Byte>, offset: nat)
    ensures offset + 2 <= |r| ==> ReadU16(r, offset) == Field(r, offset, 2)
    ensures offset + 4 <= |r| ==> ReadU32(r, offset) == Field(r, offset, 4)
    ensures offset + 6 <= |r| ==> ReadU48(r, offset) == Field(r, offset, 6)
    ensures offset + 8 <= |r| ==> ReadU64(r, offset) == Field(r, offset, 8)
  {
    hide LoadBigEndian, LoadU48, BigEndianValue;
    if offset + 2 <= |r| {
      LoadIsPositional(r[offset..offset + 2]);
    }
    if offset + 4 <= |r| {
      LoadIsPositional(r[offset..offset + 4]);
    }
    if offset + 6 <= |r| {
      LoadU48IsPositional(r[offset..offset + 6]);
    }
    if offset + 8 <= |r| {
      LoadIsPositional(r[offset..offset + 8]);
    }
  }

  /** The lengths of section 4, by letter, each with all the types that have it; no other type has one. */
  lemma LengthsByLetter(t: Byte)
    ensures t in {'S' as int, 'W' as int} <==> SpecLength(t) == 12
    ensures t in {'D' as int, 'B' as int} <==> SpecLength(t) == 19
    ensures t in {'Y' as int, 'N' as int} <==> SpecLength(t) == 20
    ensures t in {'h' as int} <==> SpecLength(t) == 21
    ensures t in {'X' as int} <==> SpecLength(t) == 23
    ensures t in {'H' as int} <==> SpecLength(t) == 25
    ensures t in {'L' as int} <==> SpecLength(t) == 26
    ensures t in {'K' as int} <==> SpecLength(t) == 28
    ensures t in {'E' as int} <==> SpecLength(t) == 31
    ensures t in {'U' as int, 'V' as int, 'J' as int} <==> SpecLength(t) == 35
    ensures t in {'A' as int, 'C' as int} <==> SpecLength(t) == 36
    ensures t in {'R' as int} <==> SpecLength(t) == 39
    ensures t in {'F' as int, 'Q' as int} <==> SpecLength(t) == 40
    ensures t in {'P' as int} <==> SpecLength(t) == 44
    ensures t in {'I' as int} <==> SpecLength(t) == 50
    ensures SpecLength(t) in {0, 12, 19, 20, 21, 23, 25, 26, 28, 31, 35, 36, 39, 40, 44, 50}
  {
  }

  // --------------------------------------------------------------------------------------------
  // The fields of each type
  // --------------------------------------------------------------------------------------------

  predicate HeaderFields(h: Header, r: seq<Byte>)
    requires |r| >= 11
  {
    h.messageType == r[0] && h.locate == Field(r, 1, 2) && h.tracking == Field(r, 3, 2) && h.timestamp == Field(r, 5, 6)
  }

  // A, F and P alike.
  predicate AddFields(a: AddOrder, r: seq<Byte>)
    requires |r| >= 36
  {
    && HeaderFields(a.header, r) && a.reference == Field(r, 11, 8) && (a.side.Buy? <==> r[19] == 'B' as int)
    && a.shares == Field(r, 20, 4) && a.stock == r[24..32] && a.price == Field(r, 32, 4)
  }

  // E and C alike.
  predicate ExecutedFields(e: OrderExecuted, r: seq<Byte>)
    requires |r| >= 31
  {
    && HeaderFields(e.header, r) && e.reference == Field(r, 11, 8)
    && e.executedShares == Field(r, 19, 4) && e.matchNumber == Field(r, 23, 8)
  }

  predicate ReplaceFields(u: OrderReplace, r: seq<Byte>)
    requires |r| >= 35
  {
    && HeaderFields(u.header, r) && u.original == Field(r, 11, 8) && u.replacement == Field(r, 19, 8)
    && u.shares == Field(r, 27, 4) && u.price == Field(r, 31, 4)
  }

  predicate DirectoryFields(d: StockDirectory, r: seq<Byte>)
    requires |r| >= 39
  {
    && HeaderFields(d.header, r) && d.stock == r[11..19] && d.marketCategory == r[19] && d.financialStatus == r[20]
    && d.roundLotSize == Field(r, 21, 4) && d.roundLotsOnly == r[25] && d.issueClassification == r[26]
    && d.issueSubType == r[27..29] && d.authenticity == r[29] && d.shortSaleThreshold == r[30]
    && d.ipoFlag == r[31] && d.luldTier == r[32] && d.etpFlag == r[33] && d.etpLeverage == Field(r, 34, 4)
    && d.inverseIndicator == r[38]
  }

  /** Every type letter goes to its own decoder, and every field comes from its own bytes. */
  predicate IsDecoding(m: Message, r: seq<Byte>)
    requires r != []
  {
    match m
    case AddMessage(a) => r[0] == 'A' as int && |r| == 36 && AddFields(a, r)
    case AddWithMpidMessage(a) =>
      r[0] == 'F' as int && |r| == 40 && AddFields(a.order, r) && a.attribution == r[36..40]
    case ExecutedMessage(e) => r[0] == 'E' as int && |r| == 31 && ExecutedFields(e, r)
    case ExecutedWithPriceMessage(e) =>
      && r[0] == 'C' as int && |r| == 36 && ExecutedFields(e.executed, r)
      && e.printable == r[31] && e.executionPrice == Field(r, 32, 4)
    case CancelMessage(c) =>
      && r[0] == 'X' as int && |r| == 23 && HeaderFields(c.header, r)
      && c.reference == Field(r, 11, 8) && c.cancelledShares == Field(r, 19, 4)
    case DeleteMessage(d) =>
      r[0] == 'D' as int && |r| == 19 && HeaderFields(d.header, r) && d.reference == Field(r, 11, 8)
    case ReplaceMessage(u) => r[0] == 'U' as int && |r| == 35 && ReplaceFields(u, r)
    case TradeMessage(t) =>
      && r[0] == 'P' as int && |r| == 44 && t.matchNumber == Field(r, 36, 8)
      && AddFields(AddOrder(t.header, t.reference, t.side, t.shares, t.stock, t.price), r)
    case SystemEventMessage(e) =>
      r[0] == 'S' as int && |r| == 12 && HeaderFields(e.header, r) && e.eventCode == r[11]
    case DirectoryMessage(d) => r[0] == 'R' as int && |r| == 39 && DirectoryFields(d, r)
    case OtherMessage(t, record) =>
      && t == r[0] && record == r && t != 'A' as int && t != 'F' as int && t != 'E' as int && t != 'C' as int
      && t != 'X' as int && t != 'D' as int && t != 'U' as int && t != 'P' as int && t != 'S' as int && t != 'R' as int
  }

  lemma HeaderRead(r: seq<Byte>)
    requires |r| >= 11
    ensures HeaderFields(DecodeHeader(r), r)
  {
    hide ReadU16, ReadU48, Field;
    ReadsAreFields(r, 1);
    ReadsAreFields(r, 3);
    ReadsAreFields(r, 5);
  }

  /** The decoded message is the standard's reading of the record. */
  lemma DecodesAsStandard(r: seq<Byte>)
    requires ValidRecord(r)
    ensures IsDecoding(Decode(r), r)
  {
    hide ReadU32, ReadU64, Field, DecodeHeader, HeaderFields;
    HeaderRead(r);
    ReadsAreFields(r, 11);
    ReadsAreFields(r, 19);
    ReadsAreFields(r, 20);
    ReadsAreFields(r, 21);
    ReadsAreFields(r, 23);
    ReadsAreFields(r, 27);
    ReadsAreFields(r, 31);
    ReadsAreFields(r, 32);
    ReadsAreFields(r, 34);
    ReadsAreFields(r, 36);
  }

  /** And the standard leaves no other: these fields determine the message. */
  lemma OneDecoding(r: seq<Byte>, m: Message)
    requires ValidRecord(r)
    ensures IsDecoding(m, r) <==> m == Decode(r)
  {
    hide Field;
    DecodesAsStandard(r);
  }

  /** Which letters go to which decoder, in both directions. */
  lemma LettersPickDecoders(r: seq<Byte>)
    requires ValidRecord(r)
    ensures Decode(r).AddMessage? <==> r[0] == 'A' as int
    ensures Decode(r).AddWithMpidMessage? <==> r[0] == 'F' as int
    ensures Decode(r).ExecutedMessage? <==> r[0] == 'E' as int
    ensures Decode(r).ExecutedWithPriceMessage? <==> r[0] == 'C' as int
    ensures Decode(r).CancelMessage? <==> r[0] == 'X' as int
    ensures Decode(r).DeleteMessage? <==> r[0] == 'D' as int
    ensures Decode(r).ReplaceMessage? <==> r[0] == 'U' as int
    ensures Decode(r).TradeMessage? <==> r[0] == 'P' as int
    ensures Decode(r).SystemEventMessage? <==> r[0] == 'S' as int
    ensures Decode(r).DirectoryMessage? <==> r[0] == 'R' as int
  {
    hide Decode, Field, AddFields, ExecutedFields, ReplaceFields, DirectoryFields, HeaderFields;
    DecodesAsStandard(r);
  }

  // --------------------------------------------------------------------------------------------
  // Sides and padding
  // --------------------------------------------------------------------------------------------

  /** What the decoders assert of a side, in letters; and what the letters mean. */
  lemma SidesAreLetters(r: seq<Byte>)
    requires ValidRecord(r)
    ensures SideByteOk(r) <==>
              (r[0] in {'A' as int, 'F' as int, 'P' as int} ==> r[19] in {'B' as int, 'S' as int})
    ensures forall b :: IsValidSide(b) <==> b == 'B' as int || b == 'S' as int
    ensures forall i | 0 <= i < |r| :: ReadSide(r, i).Buy? <==> r[i] == 'B' as int
    ensures SideByte(Buy) == 'B' as int && SideByte(Sell) == 'S' as int
  {
  }

  /** Trimming takes off the trailing spaces and nothing else. */
  lemma {:induction false} TrimTakesSpaces(field: seq<Byte>)
    ensures Trim(field) <= field
    ensures forall i | |Trim(field)| <= i < |field| :: field[i] == ' ' as int
    ensures Trim(field) != [] ==> Trim(field)[|Trim(field)| - 1] != ' ' as int
  {
    if field != [] && field[|field| - 1] == ' ' as int {
      TrimTakesSpaces(field[..|field| - 1]);
    }
  }

  /** Padding puts spaces behind the text, as many as are missing. */
  lemma PaddingIsSpaces(text: seq<Byte>, width: nat)
    ensures text <= Ljust(text, width) && |Ljust(text, width)| == (if |text| < width then width else |text|)
    ensures forall i | |text| <= i < width :: Ljust(text, width)[i] == ' ' as int
  {
  }
}
