/** The replay handler: it waits for the Stock Directory record that announces its symbol, tells the
    book which locate to accept, and forwards everything else. */
module Replay {
  import opened Bytes
  import opened MessageTable
  import opened Messages
  import opened Framer
  import opened BookModel
  import opened PriceTimePriority
  import opened OrderBooks

  datatype ReplayState = ReplayState(book: Book, resolved: bool)

  const UNRESOLVED := ReplayState(EMPTY_BOOK, false)

  /** A record the decoders may be given: of the standard's length, side byte included. */
  predicate Deliverable(r: seq<Byte>) {
    ValidRecord(r) && SideByteOk(r)
  }

  predicate AllDeliverable(rs: seq<seq<Byte>>) {
    forall i | 0 <= i < |rs| :: Deliverable(rs[i])
  }

  // A Stock Directory record that resolves the symbol.
  predicate Announces(resolved: bool, symbol: seq<Byte>, m: Message) {
    m.DirectoryMessage? && !resolved && Trim(m.directory.stock) == symbol
  }

  /** One delivery to the handler. */
  function ReplayMessage(st: ReplayState, symbol: seq<Byte>, m: Message): ReplayState {
    if Announces(st.resolved, symbol, m) then ReplayState(st.book.(locate := m.directory.header.locate), true)
    else st.(book := Step(st.book, m))
  }

  function ReplayRecords(st: ReplayState, symbol: seq<Byte>, rs: seq<seq<Byte>>): ReplayState
    requires AllDeliverable(rs)
  {
    if rs == [] then st
    else ReplayMessage(ReplayRecords(st, symbol, rs[..|rs| - 1]), symbol, Decode(rs[|rs| - 1]))
  }

  /** The asserts a delivery can reach: those of set_locate and of reduce_or_remove_in. */
  predicate AssertsHold(st: ReplayState, symbol: seq<Byte>, m: Message) {
    (Announces(st.resolved, symbol, m) ==> m.directory.header.locate != 0) && NoOverRemoval(st.book, m)
  }

  predicate AssertsHoldThroughout(st: ReplayState, symbol: seq<Byte>, rs: seq<seq<Byte>>)
    requires AllDeliverable(rs)
  {
    if rs == [] then true
    else
      AssertsHoldThroughout(st, symbol, rs[..|rs| - 1])
      && AssertsHold(ReplayRecords(st, symbol, rs[..|rs| - 1]), symbol, Decode(rs[|rs| - 1]))
  }

  lemma {:induction false} AssertsHoldAtPrefix(st: ReplayState, symbol: seq<Byte>, rs: seq<seq<Byte>>, n: nat)
    requires AllDeliverable(rs) && AssertsHoldThroughout(st, symbol, rs) && n < |rs|
    ensures AssertsHold(ReplayRecords(st, symbol, rs[..n]), symbol, Decode(rs[n]))
    decreases |rs|
  {
    hide ReplayMessage, AssertsHold, ValidRecord, SideByteOk, Decode;
    var m := |rs| - 1;
    if n < m {
      AssertsHoldAtPrefix(st, symbol, rs[..m], n);
      assert rs[..m][..n] == rs[..n];
    }
  }

  // --------------------------------------------------------------------------------------------
  // The handler
  // --------------------------------------------------------------------------------------------

  class BookReplayHandler {
    const book: OrderBook
    const symbol: seq<Byte>
    var resolved: bool

    constructor (book: OrderBook, symbol: seq<Byte>)
      requires book.Valid() && book.model == EMPTY_BOOK
      ensures this.book == book && this.symbol == symbol && Valid() && State() == UNRESOLVED
    {
      this.book, this.symbol, resolved := book, symbol, false;
    }

    ghost function State(): ReplayState
      reads this, book
    {
      ReplayState(book.model, resolved)
    }

    ghost predicate Valid()
      reads this, book, book.bids, book.asks, book.space
    {
      book.Valid() && this !in book.space && (resolved <==> book.model.locate != 0)
    }

    method OnStockDirectory(message: StockDirectory)
      requires Valid() && AssertsHold(State(), symbol, DirectoryMessage(message))
      modifies this, book
      ensures Valid() && State() == ReplayMessage(old(State()), symbol, DirectoryMessage(message))
      ensures book.space == old(book.space)
    {
      hide OrderBook.Valid;
      if !resolved && Trim(message.stock) == symbol {
        assert book.locate == 0 by {
          book.FieldsOfModel();
        }
        book.SetLocate(message.header.locate);
        resolved := true;
      }
    }

    // dispatch_record into the handler.
    method Dispatch(record: seq<Byte>)
      requires Valid() && Deliverable(record) && AssertsHold(State(), symbol, Decode(record))
      modifies this, book, book.bids, book.asks, book.space
      ensures Valid() && State() == ReplayMessage(old(State()), symbol, Decode(record))
      ensures fresh(book.space - old(book.space))
    {
      hide OrderBook.Valid, NoOverRemoval, BookModel.OnAdd, BookModel.OnExecuted, BookModel.OnCancel,
        BookModel.OnDelete, BookModel.OnReplace, BookModel.OnTrade, DecodeHeader, ReadU64, ReadU32, Covers;
      StepKeepsLocate(book.model, Decode(record));
      if record[0] == ADD_ORDER {
        book.OnAdd(DecodeAddOrder(record));
      } else if record[0] == ORDER_DELETE {
        book.OnDelete(DecodeOrderDelete(record));
      } else if record[0] == ORDER_EXECUTED {
        book.OnExecuted(DecodeOrderExecuted(record));
      } else if record[0] == ORDER_CANCEL {
        book.OnCancel(DecodeOrderCancel(record));
      } else if record[0] == ORDER_REPLACE {
        book.OnReplace(DecodeOrderReplace(record));
      } else if record[0] == ADD_WITH_MPID {
        book.OnAdd(DecodeAddOrderWithMpid(record).order);
      } else if record[0] == EXECUTED_WITH_PRICE {
        PricePlaysNoPart(book.model, DecodeOrderExecutedWithPrice(record));
        book.OnExecuted(DecodeOrderExecutedWithPrice(record).executed);
      } else if record[0] == TRADE_NON_CROSS {
        book.OnTrade(DecodeTradeNonCross(record));
      } else if record[0] == STOCK_DIRECTORY {
        OnStockDirectory(DecodeStockDirectory(record));
      }
    }

    /** parse_all with this handler. */
    method ParseAll(file: seq<Byte>) returns (outcome: FrameOutcome)
      requires Valid() && State() == UNRESOLVED
      requires AllDeliverable(Records(file)) && AssertsHoldThroughout(UNRESOLVED, symbol, Records(file))
      modifies this, book, book.bids, book.asks, book.space
      ensures Valid() && State() == ReplayRecords(UNRESOLVED, symbol, Records(file))
      ensures IsOutcome(file, outcome)
    {
      hide Valid, Walked, Records, ReplayMessage, AssertsHold, AssertsHoldThroughout, ReplayRecords, Decode,
        Deliverable, AllDeliverable, IsOutcome, ErrorHolds;
      outcome := FrameOutcome(0, 0, None, 0, 0);
      var offset := 0;
      ghost var delivered: seq<seq<Byte>> := [];
      WalkBegins(file);
      NothingReplayed(symbol);
      while offset < |file|
        invariant offset <= |file| && Walked(file, offset, delivered)
        invariant Valid() && fresh(book.space - old(book.space))
        invariant AllDeliverable(delivered) && State() == ReplayRecords(UNRESOLVED, symbol, delivered)
        invariant outcome == FrameOutcome(|delivered|, offset, None, 0, 0)
      {
        var turn := FrameTurn(file, offset);
        match turn {
          case Stop(error, errorType) =>
            outcome := outcome.(error := Some(error), errorOffset := offset, errorType := errorType);
            WalkOutcome(file, offset, delivered, outcome);
            return;
          case Deliver(record) =>
            ReplayOn(file, offset, delivered, record, symbol);
            Dispatch(record);
            delivered := delivered + [record];
            offset := offset + 2 + |record|;
            outcome := outcome.(messages := outcome.messages + 1, bytesConsumed := offset);
        }
      }
      WalkOutcome(file, offset, delivered, outcome);
    }
  }

  lemma PricePlaysNoPart(b: Book, e: OrderExecutedWithPrice)
    ensures NoOverRemoval(b, ExecutedWithPriceMessage(e)) <==> NoOverRemoval(b, ExecutedMessage(e.executed))
  {
  }

  lemma NothingReplayed(symbol: seq<Byte>)
    ensures AllDeliverable([]) && ReplayRecords(UNRESOLVED, symbol, []) == UNRESOLVED
  {
  }

  // The next record may be delivered, and the replay of what was delivered goes one step on.
  lemma ReplayOn(file: seq<Byte>, offset: nat, delivered: seq<seq<Byte>>, r: seq<Byte>, symbol: seq<Byte>)
    requires Walked(file, offset, delivered) && offset < |file| && FirstRecord(file[offset..]) == Some(r)
    requires AllDeliverable(Records(file)) && AllDeliverable(delivered)
    requires AssertsHoldThroughout(UNRESOLVED, symbol, Records(file))
    ensures offset + 2 + |r| <= |file| && Walked(file, offset + 2 + |r|, delivered + [r])
    ensures Deliverable(r) && AllDeliverable(delivered + [r])
    ensures AssertsHold(ReplayRecords(UNRESOLVED, symbol, delivered), symbol, Decode(r))
    ensures ReplayRecords(UNRESOLVED, symbol, delivered + [r])
         == ReplayMessage(ReplayRecords(UNRESOLVED, symbol, delivered), symbol, Decode(r))
  {
    hide ReplayMessage, AssertsHold, Deliverable;
    WalkOn(file, offset, delivered, r);
    var n, rs := |delivered|, Records(file);
    assert (delivered + [r])[n] == r && (delivered + [r])[..n] == delivered;
    assert rs[n] == r && rs[..n] == delivered;
    AssertsHoldAtPrefix(UNRESOLVED, symbol, rs, n);
  }
}
