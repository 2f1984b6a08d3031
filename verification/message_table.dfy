/** The message types of Nasdaq TotalView-ITCH 5.0, section 4, and their lengths. */
module MessageTable {
  import opened Bytes

  const SYSTEM_EVENT: Byte := 0x53        // 'S'
  const ADD_ORDER: Byte := 0x41           // 'A'
  const ADD_WITH_MPID: Byte := 0x46       // 'F'
  const ORDER_EXECUTED: Byte := 0x45      // 'E'
  const EXECUTED_WITH_PRICE: Byte := 0x43 // 'C'
  const ORDER_CANCEL: Byte := 0x58        // 'X'
  const ORDER_DELETE: Byte := 0x44        // 'D'
  const ORDER_REPLACE: Byte := 0x55       // 'U'
  const TRADE_NON_CROSS: Byte := 0x50     // 'P'
  const STOCK_DIRECTORY: Byte := 0x52     // 'R'
  // Defined by the standard, framed but never decoded.
  const TRADING_ACTION: Byte := 0x48      // 'H'
  const REG_SHO: Byte := 0x59             // 'Y'
  const PARTICIPANT_POSITION: Byte := 0x4C // 'L'
  const MWCB_LEVEL: Byte := 0x56          // 'V'
  const MWCB_STATUS: Byte := 0x57         // 'W'
  const IPO_QUOTING: Byte := 0x4B         // 'K'
  const LULD_COLLAR: Byte := 0x4A         // 'J'
  const OPERATIONAL_HALT: Byte := 0x68    // 'h'
  const CROSS_TRADE: Byte := 0x51         // 'Q'
  const BROKEN_TRADE: Byte := 0x42        // 'B'
  const NET_IMBALANCE: Byte := 0x49       // 'I'
  const RETAIL_INTEREST: Byte := 0x4E     // 'N'

  // Bytes common to every message: type, locate, tracking number, timestamp.
  const HEADER_LENGTH: nat := 11

  // spec_message_length, the lookup in kSpecLengths: 0 for every type the standard does not define.
  function SpecLength(messageType: Byte): (length: nat)
    ensures length == 0 || HEADER_LENGTH < length <= 50
  {
    if messageType == SYSTEM_EVENT then 12
    else if messageType == ADD_ORDER then 36
    else if messageType == ADD_WITH_MPID then 40
    else if messageType == ORDER_EXECUTED then 31
    else if messageType == EXECUTED_WITH_PRICE then 36
    else if messageType == ORDER_CANCEL then 23
    else if messageType == ORDER_DELETE then 19
    else if messageType == ORDER_REPLACE then 35
    else if messageType == TRADE_NON_CROSS then 44
    else if messageType == STOCK_DIRECTORY then 39
    else if messageType == TRADING_ACTION then 25
    else if messageType == REG_SHO then 20
    else if messageType == PARTICIPANT_POSITION then 26
    else if messageType == MWCB_LEVEL then 35
    else if messageType == MWCB_STATUS then 12
    else if messageType == IPO_QUOTING then 28
    else if messageType == LULD_COLLAR then 35
    else if messageType == OPERATIONAL_HALT then 21
    else if messageType == CROSS_TRADE then 40
    else if messageType == BROKEN_TRADE then 19
    else if messageType == NET_IMBALANCE then 50
    else if messageType == RETAIL_INTEREST then 20
    else 0
  }

  /** SPEC_LENGTHS of the Python tools: a dictionary keyed by the one-byte type string. */
  const PYTHON_LENGTHS: map<seq<Byte>, nat> := map[
    ['S' as int] := 12, ['R' as int] := 39, ['H' as int] := 25, ['Y' as int] := 20, ['L' as int] := 26,
    ['V' as int] := 35, ['W' as int] := 12, ['K' as int] := 28, ['J' as int] := 35, ['h' as int] := 21,
    ['A' as int] := 36, ['F' as int] := 40, ['E' as int] := 31, ['C' as int] := 36, ['X' as int] := 23,
    ['D' as int] := 19, ['U' as int] := 35, ['P' as int] := 44, ['Q' as int] := 40, ['B' as int] := 19,
    ['I' as int] := 50, ['N' as int] := 20
  ]

  /** The two tables define the same types with the same lengths; Python's also answers for the
      empty type string, which it does not define. */
  lemma TablesAgree(messageType: Byte)
    ensures [messageType] in PYTHON_LENGTHS <==> SpecLength(messageType) != 0
    ensures [messageType] in PYTHON_LENGTHS ==> PYTHON_LENGTHS[[messageType]] == SpecLength(messageType)
    ensures [] !in PYTHON_LENGTHS
  {
    assert [messageType][0] == messageType;
  }
}
