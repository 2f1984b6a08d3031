/** The independent Python book: plain dictionaries from price to total shares, no queues, and a
    level dropped when its total reaches zero. */
module ReferenceBooks {
  import opened Bytes
  import opened Messages
  import opened Codec
  import opened BookModel

  // `side` is the one-character string read from the wire; Python's integers do not wrap.
  datatype PyOrder = PyOrder(side: Byte, price: U32, shares: int)

  datatype PyBook = PyBook(
    locate: Option<U16>, orders: map<U64, PyOrder>, bidLevels: map<U32, int>, askLevels: map<U32, int>, tallies: Stats)

  const EMPTY_PY_BOOK := PyBook(None, map[], map[], map[], NO_STATS)

  function PyLevels(s: PyBook, side: Byte): map<U32, int> {
    if side == 'B' as int then s.bidLevels else s.askLevels
  }

  function WithLevels(s: PyBook, side: Byte, levels: map<U32, int>): PyBook {
    if side == 'B' as int then s.(bidLevels := levels) else s.(askLevels := levels)
  }

  function PyInsert(s: PyBook, reference: U64, side: Byte, price: U32, shares: int): PyBook {
    var levels := PyLevels(s, side);
    WithLevels(s.(orders := s.orders[reference := PyOrder(side, price, shares)]), side,
               levels[price := (if price in levels then levels[price] else 0) + shares])
  }

  // None is the KeyError of a level that is not there.
  function PyReduce(s: PyBook, reference: U64, sharesRemoved: int, removeAll: bool): Option<PyBook> {
    if reference !in s.orders then Some(s)
    else
      var order := s.orders[reference];
      var removed := if removeAll then order.shares else sharesRemoved;
      var levels := PyLevels(s, order.side);
      if order.price !in levels then None
      else
        var total, left := levels[order.price] - removed, order.shares - removed;
        Some(WithLevels(s, order.side, if total == 0 then levels - {order.price} else levels[order.price := total])
             .(orders := if removeAll || left == 0 then s.orders - {reference}
                         else s.orders[reference := order.(shares := left)]))
  }

  function PyAdd(s: PyBook, reference: U64, side: Byte, price: U32, shares: int): PyBook {
    PyInsert(s, reference, side, price, shares).(tallies := s.tallies.(adds := s.tallies.adds + 1))
  }

  function PyExecute(s: PyBook, reference: U64, shares: int): Option<PyBook> {
    var after :- PyReduce(s, reference, shares, false);
    Some(after.(tallies := s.tallies.(executions := s.tallies.executions + 1)))
  }

  function PyCancel(s: PyBook, reference: U64, shares: int): Option<PyBook> {
    var after :- PyReduce(s, reference, shares, false);
    Some(after.(tallies := s.tallies.(cancels := s.tallies.cancels + 1)))
  }

  function PyDelete(s: PyBook, reference: U64): Option<PyBook> {
    var after :- PyReduce(s, reference, 0, true);
    Some(after.(tallies := s.tallies.(deletes := s.tallies.deletes + 1)))
  }

  function PyReplace(s: PyBook, original: U64, replacement: U64, shares: int, price: U32): Option<PyBook> {
    if original !in s.orders then Some(s)
    else
      var after :- PyReduce(s, original, 0, true);
      Some(PyInsert(after, replacement, s.orders[original].side, price, shares)
           .(tallies := s.tallies.(replacements := s.tallies.replacements + 1)))
  }

  function PyTrade(s: PyBook): PyBook {
    s.(tallies := s.tallies.(trades := s.tallies.trades + 1))
  }

  // struct.unpack(">I"), (">Q") and (">H").
  function UnpackU16(r: seq<Byte>, offset: nat): U16
    requires offset + 2 <= |r|
  {
    Pow256Widths();
    BigEndianValue(r[offset..offset + 2])
  }

  function UnpackU32(r: seq<Byte>, offset: nat): U32
    requires offset + 4 <= |r|
  {
    Pow256Widths();
    BigEndianValue(r[offset..offset + 4])
  }

  function UnpackU64(r: seq<Byte>, offset: nat): U64
    requires offset + 8 <= |r|
  {
    Pow256Widths();
    BigEndianValue(r[offset..offset + 8])
  }

  /** _apply: one record into the book, read with the script's own offsets. */
  function PyApply(s: PyBook, r: seq<Byte>): Option<PyBook>
    requires ValidRecord(r)
  {
    if r[0] == 'A' as int || r[0] == 'F' as int then
      Some(PyAdd(s, UnpackU64(r, 11), r[19], UnpackU32(r, 32), UnpackU32(r, 20)))
    else if r[0] == 'E' as int || r[0] == 'C' as int then
      PyExecute(s, UnpackU64(r, 11), UnpackU32(r, 19))
    else if r[0] == 'X' as int then PyCancel(s, UnpackU64(r, 11), UnpackU32(r, 19))
    else if r[0] == 'D' as int then PyDelete(s, UnpackU64(r, 11))
    else if r[0] == 'U' as int then
      PyReplace(s, UnpackU64(r, 11), UnpackU64(r, 19), UnpackU32(r, 27), UnpackU32(r, 31))
    else if r[0] == 'P' as int then Some(PyTrade(s))
    else Some(s)
  }

  /** The same on decoded messages. */
  function PyStep(s: PyBook, m: Message): Option<PyBook> {
    match m
    case AddMessage(a) => Some(PyAdd(s, a.reference, SideByte(a.side), a.price, a.shares))
    case AddWithMpidMessage(a) =>
      Some(PyAdd(s, a.order.reference, SideByte(a.order.side), a.order.price, a.order.shares))
    case ExecutedMessage(e) => PyExecute(s, e.reference, e.executedShares)
    case ExecutedWithPriceMessage(e) => PyExecute(s, e.executed.reference, e.executed.executedShares)
    case CancelMessage(c) => PyCancel(s, c.reference, c.cancelledShares)
    case DeleteMessage(d) => PyDelete(s, d.reference)
    case ReplaceMessage(u) => PyReplace(s, u.original, u.replacement, u.shares, u.price)
    case TradeMessage(_) => Some(PyTrade(s))
    case _ => Some(s)
  }

  lemma UnpackReads(r: seq<Byte>, offset: nat)
    ensures offset + 2 <= |r| ==> UnpackU16(r, offset) == ReadU16(r, offset)
    ensures offset + 4 <= |r| ==> UnpackU32(r, offset) == ReadU32(r, offset)
    ensures offset + 8 <= |r| ==> UnpackU64(r, offset) == ReadU64(r, offset)
  {
    if offset + 2 <= |r| {
      LoadIsPositional(r[offset..offset + 2]);
    }
    if offset + 4 <= |r| {
      LoadIsPositional(r[offset..offset + 4]);
    }
    if offset + 8 <= |r| {
      LoadIsPositional(r[offset..offset + 8]);
    }
  }

  /** The script's offsets and struct formats read the fields that the C++ decoders read. */
  lemma ApplyIsStep(s: PyBook, r: seq<Byte>)
    requires ValidRecord(r) && SideByteOk(r)
    ensures PyApply(s, r) == PyStep(s, Decode(r))
  {
    hide PyAdd, PyReduce, PyReplace, PyExecute, PyCancel, PyDelete, UnpackU32, UnpackU64, ReadU32,
      ReadU64, DecodeHeader;
    UnpackReads(r, 11);
    UnpackReads(r, 19);
    UnpackReads(r, 20);
    UnpackReads(r, 27);
    UnpackReads(r, 31);
    UnpackReads(r, 32);
  }

  // --------------------------------------------------------------------------------------------
  // The class
  // --------------------------------------------------------------------------------------------

  class ReferenceBook {
    var locate: Option<U16>
    var orders: map<U64, PyOrder>
    var bidLevels: map<U32, int>
    var askLevels: map<U32, int>
    var tallies: Stats

    constructor ()
      ensures State() == EMPTY_PY_BOOK
    {
      locate, orders, bidLevels, askLevels, tallies := None, map[], map[], map[], NO_STATS;
    }

    function State(): PyBook
      reads this
    {
      PyBook(locate, orders, bidLevels, askLevels, tallies)
    }

    method Insert(reference: U64, side: Byte, price: U32, shares: int)
      modifies this
      ensures State() == PyInsert(old(State()), reference, side, price, shares)
    {
      orders := orders[reference := PyOrder(side, price, shares)];
      if side == 'B' as int {
        bidLevels := bidLevels[price := (if price in bidLevels then bidLevels[price] else 0) + shares];
      } else {
        askLevels := askLevels[price := (if price in askLevels then askLevels[price] else 0) + shares];
      }
    }

    // A KeyError is raised before anything is written.
    method ReduceOrRemove(reference: U64, sharesRemoved: int, removeAll: bool) returns (raised: bool)
      modifies this
      ensures raised <==> PyReduce(old(State()), reference, sharesRemoved, removeAll).None?
      ensures raised ==> State() == old(State())
      ensures !raised ==> Some(State()) == PyReduce(old(State()), reference, sharesRemoved, removeAll)
    {
      if reference !in orders {
        return false;
      }
      var order := orders[reference];
      var removed := if removeAll then order.shares else sharesRemoved;
      var levels := if order.side == 'B' as int then bidLevels else askLevels;
      if order.price !in levels {
        return true;
      }
      levels := levels[order.price := levels[order.price] - removed];
      if levels[order.price] == 0 {
        levels := levels - {order.price};
      }
      if order.side == 'B' as int {
        bidLevels := levels;
      } else {
        askLevels := levels;
      }
      order := order.(shares := order.shares - removed);
      orders := orders[reference := order];
      if removeAll || order.shares == 0 {
        orders := orders - {reference};
      }
      raised := false;
      assert PyReduce(old(State()), reference, sharesRemoved, removeAll).value.orders == orders;
      assert PyLevels(PyReduce(old(State()), reference, sharesRemoved, removeAll).value, order.side) == levels;
    }

    // add, execute, cancel, delete, replace and the trade tally, as _apply reaches them.
    method Apply(r: seq<Byte>) returns (raised: bool)
      requires ValidRecord(r)
      modifies this
      ensures raised <==> PyApply(old(State()), r).None?
      ensures !raised ==> Some(State()) == PyApply(old(State()), r)
    {
      raised := false;
      if r[0] == 'A' as int || r[0] == 'F' as int {
        Insert(UnpackU64(r, 11), r[19], UnpackU32(r, 32), UnpackU32(r, 20));
        tallies := tallies.(adds := tallies.adds + 1);
      } else if r[0] == 'E' as int || r[0] == 'C' as int {
        raised := ReduceOrRemove(UnpackU64(r, 11), UnpackU32(r, 19), false);
        if !raised {
          tallies := tallies.(executions := tallies.executions + 1);
        }
      } else if r[0] == 'X' as int {
        raised := ReduceOrRemove(UnpackU64(r, 11), UnpackU32(r, 19), false);
        if !raised {
          tallies := tallies.(cancels := tallies.cancels + 1);
        }
      } else if r[0] == 'D' as int {
        raised := ReduceOrRemove(UnpackU64(r, 11), 0, true);
        if !raised {
          tallies := tallies.(deletes := tallies.deletes + 1);
        }
      } else if r[0] == 'U' as int {
        var original := UnpackU64(r, 11);
        if original in orders {
          var side := orders[original].side;
          raised := ReduceOrRemove(original, 0, true);
          if !raised {
            Insert(UnpackU64(r, 19), side, UnpackU32(r, 31), UnpackU32(r, 27));
            tallies := tallies.(replacements := tallies.replacements + 1);
          }
        }
      } else if r[0] == 'P' as int {
        tallies := tallies.(trades := tallies.trades + 1);
      }
    }

    // max(levels) or min(levels), and the total there.
    method Best(side: Byte) returns (best: Option<(U32, int)>)
      ensures PyIsBest(State(), side, best)
    {
      var levels := if side == 'B' as int then bidLevels else askLevels;
      if levels == map[] {
        return None;
      }
      var price :| price in levels;
      var rest := levels.Keys - {price};
      while rest != {}
        invariant rest <= levels.Keys && price in levels
        invariant forall p | p in levels && p !in rest :: p == price || PyBetter(side, price, p)
        decreases rest
      {
        var p :| p in rest;
        if PyBetter(side, p, price) {
          price := p;
        }
        rest := rest - {p};
      }
      return Some((price, levels[price]));
    }
  }

  predicate PyBetter(side: Byte, p: U32, other: U32) {
    if side == 'B' as int then p > other else p < other
  }

  ghost predicate PyIsBest(s: PyBook, side: Byte, best: Option<(U32, int)>) {
    var levels := PyLevels(s, side);
    match best
    case None => levels == map[]
    case Some((price, total)) =>
      price in levels && total == levels[price]
      && forall p | p in levels :: p == price || PyBetter(side, price, p)
  }
}
