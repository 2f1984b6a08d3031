/** The two programs on one file and symbol: book_replay and reference_book report the same. */
module EndToEnd {
  import opened Bytes
  import opened MessageTable
  import opened Messages
  import opened Codec
  import opened Framer
  import opened BookModel
  import opened PriceTimePriority
  import opened Conservation
  import opened OrderBooks
  import opened Replay
  import opened Projection
  import opened Sessions
  import opened Symbols
  import opened ReferenceBooks
  import opened Refinement
  import opened PythonWalk
  import opened PythonReplay

  // --------------------------------------------------------------------------------------------
  // The two replays, side by side
  // --------------------------------------------------------------------------------------------

  /** Corresponding states: resolved alike, to the same locate, with books in step and equal tallies. */
  ghost predicate SideBySide(st: ReplayState, py: PyReplay) {
    && st.resolved == py.resolved
    && py.book.locate == (if st.resolved then Some(st.book.locate) else None)
    && Simulates(st.book, py.book)
  }

  ghost predicate Agree(symbol: seq<Byte>, rs: seq<seq<Byte>>)
    requires AllDeliverable(rs)
  {
    && AllValid(rs)
    && var py := PyReplayRecords(PY_UNRESOLVED, Ljust(symbol, 8), rs);
       py.Some? && SideBySide(ReplayRecords(UNRESOLVED, symbol, rs), py.value)
  }

  /** The two replays agree after every record, and the Python one has raised nothing. */
  ghost predicate AgreeThroughout(symbol: seq<Byte>, rs: seq<seq<Byte>>)
    requires AllDeliverable(rs)
  {
    Agree(symbol, rs) && (rs != [] ==> AgreeThroughout(symbol, rs[..|rs| - 1]))
  }

  /** What keeps the replays together for one more record: an unresolved book ignores it, as the script
      does, and a resolved book stays in step. */
  predicate KeepsTogether(st: ReplayState, m: Message) {
    if st.resolved then Accepts(st.book, m) ==> StaysInStep(st.book, m) else Ignored(st.book, m)
  }

  predicate TogetherThroughout(symbol: seq<Byte>, rs: seq<seq<Byte>>)
    requires AllDeliverable(rs)
  {
    if rs == [] then true
    else
      TogetherThroughout(symbol, rs[..|rs| - 1])
      && KeepsTogether(ReplayRecords(UNRESOLVED, symbol, rs[..|rs| - 1]), Decode(rs[|rs| - 1]))
  }

  predicate IsBookMessage(m: Message) {
    !m.SystemEventMessage? && !m.DirectoryMessage? && !m.OtherMessage?
  }

  lemma LocateRead(r: seq<Byte>)
    requires Deliverable(r)
    ensures |r| > HEADER_LENGTH && (r[0] == STOCK_DIRECTORY ==> |r| == SpecLength(STOCK_DIRECTORY))
    ensures UnpackU16(r, 1) == LocateOf(r) && HeaderOf(Decode(r)) == DecodeHeader(r)
    ensures Decode(r).DirectoryMessage? <==> r[0] == STOCK_DIRECTORY
    ensures r[0] == STOCK_DIRECTORY ==>
              Decode(r).directory.stock == r[11..19] && Decode(r).directory.header.locate == LocateOf(r)
    ensures Decode(r).OtherMessage? ==> Decode(r).record == r
  {
    hide ReadU32, ReadU48, ReadU64;
    UnpackReads(r, 1);
    HeaderIsDecoded(r);
  }

  lemma AcceptedLocate(b: Book, m: Message)
    requires m.OtherMessage? ==> |m.record| >= HEADER_LENGTH
    ensures Accepts(b, m) <==> IsBookMessage(m) && HeaderOf(m).locate == b.locate
    ensures !Accepts(b, m) ==> Step(b, m) == b
    ensures !IsBookMessage(m) ==> forall s :: PyStep(s, m) == Some(s)
  {
  }

  // A directory record resolves both handlers or neither.
  lemma DirectoryExactly(st: ReplayState, py: PyReplay, symbol: seq<Byte>, r: seq<Byte>)
    requires SideBySide(st, py) && Deliverable(r) && r[0] == STOCK_DIRECTORY
    requires |symbol| > 8 || NoTrailingSpace(symbol)
    ensures var next := PyReplayRecord(py, Ljust(symbol, 8), r);
            next.Some? && SideBySide(ReplayMessage(st, symbol, Decode(r)), next.value)
    ensures KeepsTogether(st, Decode(r))
  {
    hide Decode, DecodeHeader, Step, Matches, Trim, Ljust, UnpackU16, ValidRecord, SideByteOk, StaysInStep, Accepts;
    LocateRead(r);
    MatchOne(symbol, r[11..19]);
    AcceptedLocate(st.book, Decode(r));
    MatchesAside(st.book, st.book.(locate := LocateOf(r)), py.book, py.book.(locate := Some(LocateOf(r))));
  }

  // Any other record reaches both books or neither, unless the handlers are unresolved.
  lemma OtherExactly(st: ReplayState, py: PyReplay, symbol: seq<Byte>, r: seq<Byte>)
    requires SideBySide(st, py) && Coherent(st.book) && Deliverable(r) && r[0] != STOCK_DIRECTORY
    requires NoOverRemoval(st.book, Decode(r))
    ensures var next := PyReplayRecord(py, Ljust(symbol, 8), r);
            next.Some? && (SideBySide(ReplayMessage(st, symbol, Decode(r)), next.value)
                           <==> KeepsTogether(st, Decode(r)))
  {
    hide Decode, DecodeHeader, Step, Coherent, Matches, PyStep, PyApply, Trim, Ljust, UnpackU16, ValidRecord,
      SideByteOk, Accepts, NoOverRemoval, StaysInStep, Ignored, TallySum;
    var m := Decode(r);
    LocateRead(r);
    OthersKeepTheirRecord(r);
    AcceptedLocate(st.book, m);
    ApplyIsStep(py.book, r);
    StepKeepsLocate(st.book, m);
    if !st.resolved {
      IgnoredExactly(st.book, m);
    } else if Accepts(st.book, m) {
      StepExactly(st.book, py.book, m);
      PyStepKeepsLocate(py.book, m);
    }
  }

  lemma PyStepKeepsLocate(s: PyBook, m: Message)
    requires PyStep(s, m).Some?
    ensures PyStep(s, m).value.locate == s.locate
  {
  }

  lemma NothingAgrees(symbol: seq<Byte>)
    ensures AgreeThroughout(symbol, []) && TogetherThroughout(symbol, [])
  {
  }

  lemma AgreeOnce(symbol: seq<Byte>, before: seq<seq<Byte>>, r: seq<Byte>)
    requires AllDeliverable(before) && AllDeliverable(before + [r]) && Deliverable(r) && Agree(symbol, before)
    requires OrderlyThroughout(symbol, before + [r]) && (|symbol| > 8 || NoTrailingSpace(symbol))
    ensures Agree(symbol, before + [r]) <==> KeepsTogether(ReplayRecords(UNRESOLVED, symbol, before), Decode(r))
  {
    hide ValidRecord, SideByteOk, Decode, ReplayMessage, PyReplayRecord, SideBySide, Ljust, Coherent, Refines,
      AllDeliverable, KeepsTogether;
    var st := ReplayRecords(UNRESOLVED, symbol, before);
    var py := PyReplayRecords(PY_UNRESOLVED, Ljust(symbol, 8), before).value;
    LocateRead(r);
    ReplaySnoc(UNRESOLVED, symbol, before, r);
    ReplayOnce(PY_UNRESOLVED, Ljust(symbol, 8), before, r);
    ReplayTracks(symbol, before);
    NoAssertFires(symbol, before + [r]);
    assert NoOverRemoval(st.book, Decode(r)) by {
      AssertsHoldAtPrefix(UNRESOLVED, symbol, before + [r], |before|);
      assert (before + [r])[..|before|] == before;
    }
    if r[0] == STOCK_DIRECTORY {
      DirectoryExactly(st, py, symbol, r);
    } else {
      OtherExactly(st, py, symbol, r);
    }
  }

  /** The two replays of an orderly session agree after every record exactly when every record keeps
      them together. Nothing is asked of shares, references or early locates. */
  lemma {:induction false} AgreeExactly(symbol: seq<Byte>, rs: seq<seq<Byte>>)
    requires AllDeliverable(rs) && OrderlyThroughout(symbol, rs) && (|symbol| > 8 || NoTrailingSpace(symbol))
    ensures AgreeThroughout(symbol, rs) <==> TogetherThroughout(symbol, rs)
  {
    hide ValidRecord, SideByteOk, Decode, ReplayMessage, KeepsTogether, OrderlyRecord, Agree;
    if rs == [] {
      NothingAgrees(symbol);
    } else {
      var before, r := rs[..|rs| - 1], rs[|rs| - 1];
      assert rs == before + [r];
      AgreeExactly(symbol, before);
      if AgreeThroughout(symbol, before) {
        AgreeOnce(symbol, before, r);
      }
    }
  }

  // --------------------------------------------------------------------------------------------
  // Well-formed sessions
  // --------------------------------------------------------------------------------------------

  /** Conditions on the session alone that keep the replays together. */
  predicate WellFormedSession(symbol: seq<Byte>, rs: seq<seq<Byte>>)
    requires AllDeliverable(rs)
  {
    && OrderlyThroughout(symbol, rs) && FreshThroughout(symbol, rs)
    && Throughout(PositiveRecord, symbol, rs) && Throughout(AttributedRecord, symbol, rs)
  }

  lemma WellFormedKeepsTogether(st: ReplayState, fs: FlatReplay, symbol: seq<Byte>, m: Message)
    requires Tracks(st, fs) && Positive(st.book)
    requires FreshRecord(fs, symbol, m) && OrderlyRecord(fs, symbol, m)
    requires PositiveRecord(fs, symbol, m) && AttributedRecord(fs, symbol, m)
    ensures KeepsTogether(st, m) && Positive(ReplayMessage(st, symbol, m).book)
  {
    hide Coherent, Refines, Positive, StaysInStep, Fresh, FreshRecord, OrderlyRecord, PositiveRecord, NoOverRemoval,
      PositiveShares, Step;
    MeansTheSame(st, fs, symbol, m);
    StepPositive(st.book, m);
    if st.resolved && Accepts(st.book, m) {
      PositiveStaysInStep(st.book, m);
    }
    if m.DirectoryMessage? {
      SameBookPositive(st.book, st.book.(locate := m.directory.header.locate));
    }
  }

  lemma EmptyPositive()
    ensures Positive(EMPTY_BOOK)
  {
  }

  /** Fresh references, positive shares and no early locate 0 are enough, in an orderly session. */
  lemma {:induction false} WellFormedStaysTogether(symbol: seq<Byte>, rs: seq<seq<Byte>>)
    requires AllDeliverable(rs) && WellFormedSession(symbol, rs)
    ensures TogetherThroughout(symbol, rs) && Positive(ReplayRecords(UNRESOLVED, symbol, rs).book)
  {
    hide ValidRecord, SideByteOk, Decode, ReplayMessage, KeepsTogether, OrderlyRecord, FreshRecord, PositiveRecord,
      AttributedRecord, Positive, Tracks;
    if rs == [] {
      EmptyPositive();
    } else {
      var before, r := rs[..|rs| - 1], rs[|rs| - 1];
      WellFormedStaysTogether(symbol, before);
      ReplayTracks(symbol, before);
      WellFormedKeepsTogether(ReplayRecords(UNRESOLVED, symbol, before), FlatRecords(symbol, before), symbol,
                              Decode(r));
    }
  }

  // An add that an unresolved book takes for its own, and the script does not look at.
  lemma EarlyAdd(symbol: seq<Byte>, r: seq<Byte>, a: AddOrder)
    requires Deliverable(r) && Decode(r) == AddMessage(a) && a.header.locate == 0 && a.shares > 0
    ensures AllDeliverable([r]) && AllValid([r])
    ensures ReplayRecords(UNRESOLVED, symbol, [r]) == UNRESOLVED.(book := Step(EMPTY_BOOK, AddMessage(a)))
    ensures Throughout(OrderlyRecord, symbol, [r]) && Throughout(FreshRecord, symbol, [r])
    ensures Throughout(PositiveRecord, symbol, [r]) && !FlatRecords(symbol, [r]).resolved
    ensures PyReplayRecords(PY_UNRESOLVED, Ljust(symbol, 8), [r]) == Some(PY_UNRESOLVED)
  {
    hide Decode, ValidRecord, SideByteOk, Trim, Ljust, UnpackU16, DecodeHeader, PyApply;
    LocateRead(r);
  }

  /** The session that an early locate 0 spoils: an add that carries it, and then the record that
      announces the symbol under a real locate. The file is framed to its end, every other hypothesis
      holds, and yet the C++ program counts the add and the script does not. */
  lemma EarlyAddSpoils(a: AddOrder, d: StockDirectory)
    requires a.header.messageType == ADD_ORDER && a.header.locate == 0 && a.shares > 0
    requires d.header.messageType == STOCK_DIRECTORY && d.header.locate != 0
    ensures var rs := [Encode(AddMessage(a)), Encode(DirectoryMessage(d))];
            var symbol := Trim(d.stock);
            && Records(FramedAll(rs)) == rs && AllDeliverable(rs) && AllValid(rs)
            && OrderlyThroughout(symbol, rs) && FreshThroughout(symbol, rs) && Throughout(PositiveRecord, symbol, rs)
            && ReplayRecords(UNRESOLVED, symbol, rs).book.stats == NO_STATS.(adds := 1)
            && PyReplayRecords(PY_UNRESOLVED, Ljust(symbol, 8), rs)
               == Some(PyReplay(EMPTY_PY_BOOK.(locate := Some(d.header.locate)), true))
  {
    hide Encode, Decode, ValidRecord, SideByteOk, Trim, Ljust, UnpackU16, Records, FramedAll, DecodeHeader, PyApply;
    var first, second := Encode(AddMessage(a)), Encode(DirectoryMessage(d));
    var rs, symbol := [first, second], Trim(d.stock);
    EncodeThenDecodeMessage(AddMessage(a));
    EncodeThenDecodeMessage(DirectoryMessage(d));
    LocateRead(second);
    TrimThenPad(d.stock);
    FramingRoundTrip(rs);
    EarlyAdd(symbol, first, a);
    assert rs[..1] == [first];
  }

  // --------------------------------------------------------------------------------------------
  // Capacity
  // --------------------------------------------------------------------------------------------

  const ADDS: set<Byte> := {ADD_ORDER, ADD_WITH_MPID}
  const INSERTIONS: set<Byte> := {ADD_ORDER, ADD_WITH_MPID, ORDER_REPLACE}

  /** How many records are of one of the types. */
  function RecordsOf(types: set<Byte>, rs: seq<seq<Byte>>): nat
    requires AllDeliverable(rs)
  {
    if rs == [] then 0
    else RecordsOf(types, rs[..|rs| - 1]) + if rs[|rs| - 1][0] in types then 1 else 0
  }

  /** Records of types that take at least `size` bytes each, length prefix included, take that many
      times their number of the file. */
  lemma {:induction false} RecordsTakeBytes(types: set<Byte>, size: nat, rs: seq<seq<Byte>>)
    requires AllDeliverable(rs) && forall t | t in types :: size <= SpecLength(t) + 2
    ensures size * RecordsOf(types, rs) <= |FramedAll(rs)|
  {
    hide SpecLength, SideByteOk, FramedAll;
    if rs != [] {
      var before, r := rs[..|rs| - 1], rs[|rs| - 1];
      RecordsTakeBytes(types, size, before);
      OneMore(size, RecordsOf(types, before));
      FramedBytesAppend(before, r);
      assert before + [r] == rs;
    }
  }

  lemma FramedBytesAppend(before: seq<seq<Byte>>, r: seq<Byte>)
    ensures |FramedAll(before + [r])| == |FramedAll(before)| + |r| + 2
  {
    FramedAllAppend(before, [r]);
    assert FramedAll([r]) == Framed(r);
  }

  lemma OneMore(size: nat, n: nat)
    ensures size * (n + 1) == size * n + size
  {
  }

  /** The live orders are at most the adds counted, and those at most the add records: a replace raises
      neither. All insertions, of strays too, are at most the add and replace records. */
  lemma {:induction false} OrdersBoundedByRecords(symbol: seq<Byte>, rs: seq<seq<Byte>>)
    requires AllDeliverable(rs)
    ensures var b := ReplayRecords(UNRESOLVED, symbol, rs).book;
            |b.orders| <= b.stats.adds <= RecordsOf(ADDS, rs) && b.arrivals <= RecordsOf(INSERTIONS, rs)
  {
    hide ValidRecord, SideByteOk, Coherent, Refines, Step, Decode;
    if rs != [] {
      var before, r := rs[..|rs| - 1], rs[|rs| - 1];
      OrdersBoundedByRecords(symbol, before);
      ReplayTracks(symbol, before);
      var st := ReplayRecords(UNRESOLVED, symbol, before);
      StepCount(st.book, Decode(r));
      InsertionsAreRecords(st.book, r);
    }
  }

  lemma InsertionsAreRecords(b: Book, r: seq<Byte>)
    requires Deliverable(r)
    ensures Step(b, Decode(r)).stats.adds <= b.stats.adds + if r[0] in ADDS then 1 else 0
    ensures Step(b, Decode(r)).arrivals <= b.arrivals + if r[0] in INSERTIONS then 1 else 0
  {
    hide DecodeHeader, ReadU32, ReadU64, Lookup, QueueAt;
  }

  lemma FramedPrefix(file: seq<Byte>, n: nat)
    requires n <= |Records(file)|
    ensures |FramedAll(Records(file)[..n])| <= |file|
  {
    hide Records, FramedAll;
    var rs := Records(file);
    RecordsAreFraming(file);
    FramedAllAppend(rs[..n], rs[n..]);
    assert rs[..n] + rs[n..] == rs;
  }

  /** The size below which no level total can wrap: 37 bytes of the file for every arrival, or with
      fresh references 38 for every live order. */
  predicate TotalsFit(symbol: seq<Byte>, file: seq<Byte>)
    requires AllDeliverable(Records(file))
  {
    |file| <= 37 * TWO_TO_THE_32 || (|file| <= 38 * TWO_TO_THE_32 && FreshThroughout(symbol, Records(file)))
  }

  /** No file of at most 37 * 2^32 bytes, and none of at most 38 * 2^32 bytes whose insertions are fresh,
      can make a level total wrap, at any record: from the framer's byte count, through the insertions
      it allows, to the sum of any queue. */
  lemma TotalsCannotWrap(symbol: seq<Byte>, file: seq<Byte>, n: nat, k: Key)
    requires AllDeliverable(Records(file)) && TotalsFit(symbol, file) && n <= |Records(file)|
    ensures Sum(QueueAt(ReplayRecords(UNRESOLVED, symbol, Records(file)[..n]).book, k)) < TWO_TO_THE_64
  {
    hide ReplayRecords, Records, Deliverable, Faithful, Coherent, Refines, QueueAt, FreshRecord, Throughout, RecordsOf,
      FramedAll;
    var rs := Records(file)[..n];
    var b := ReplayRecords(UNRESOLVED, symbol, rs).book;
    FramedPrefix(file, n);
    OrdersBoundedByRecords(symbol, rs);
    if |file| <= 37 * TWO_TO_THE_32 {
      RecordsTakeBytes(INSERTIONS, 37, rs);
      ReplayTracks(symbol, rs);
      QueueAtMostArrivals(b, k);
      ShortQueueDoesNotWrap(QueueAt(b, k));
    } else {
      RecordsTakeBytes(ADDS, 38, rs);
      ThroughoutPrefix(FreshRecord, symbol, Records(file), n);
      SessionFaithful(symbol, rs);
      TotalDoesNotWrap(b, k);
    }
  }

  // --------------------------------------------------------------------------------------------
  // What the programs report
  // --------------------------------------------------------------------------------------------

  /** What both programs print of a session. Best prices come with the shares resting there. */
  datatype Report = Report(
    resolved: bool, locate: Option<U16>, tallies: Stats, restingOrders: nat, bidLevels: nat, askLevels: nat,
    bestBid: Option<(U32, int)>, bestAsk: Option<(U32, int)>)

  function Shown(best: Option<BookLevel>): Option<(U32, int)> {
    match best
    case None => None
    case Some(level) => Some((level.price, level.shares))
  }

  function In64Bits(best: Option<(U32, int)>): Option<(U32, int)> {
    match best
    case None => None
    case Some((price, shares)) => Some((price, shares % TWO_TO_THE_64))
  }

  function ReportIn64Bits(report: Report): Report {
    report.(bestBid := In64Bits(report.bestBid), bestAsk := In64Bits(report.bestAsk))
  }

  /** The report that a final state of the C++ replay prints. */
  ghost predicate IsReport(st: ReplayState, report: Report) {
    && report.resolved == st.resolved && report.tallies == st.book.stats
    && report.locate == (if st.resolved then Some(st.book.locate) else None)
    && report.restingOrders == |st.book.orders|
    && report.bidLevels == |LevelPrices(st.book, Buy)| && report.askLevels == |LevelPrices(st.book, Sell)|
    && (exists best :: IsBest(st.book, Buy, best) && report.bestBid == Shown(best))
    && (exists best :: IsBest(st.book, Sell, best) && report.bestAsk == Shown(best))
  }

  /** And the Python replay. */
  ghost predicate IsPyReport(py: PyReplay, report: Report) {
    && report.resolved == py.resolved && report.tallies == py.book.tallies && report.locate == py.book.locate
    && report.restingOrders == |py.book.orders|
    && report.bidLevels == |py.book.bidLevels| && report.askLevels == |py.book.askLevels|
    && PyIsBest(py.book, 'B' as int, report.bestBid) && PyIsBest(py.book, 'S' as int, report.bestAsk)
  }

  lemma BestAgrees(b: Book, s: PyBook, side: Side, best: Option<BookLevel>, pyBest: Option<(U32, int)>)
    requires LevelsAgree(b, s) && IsBest(b, side, best) && PyIsBest(s, SideByte(side), pyBest)
    ensures Shown(best) == In64Bits(pyBest)
    ensures best.Some? ==>
              pyBest.Some? && Key(side, best.value.price) in b.queues
              && pyBest.value.1 == Sum(b.queues[Key(side, best.value.price)])
  {
    var p := if best.Some? then best.value.price else 0;
    var p' := if pyBest.Some? then pyBest.value.0 else 0;
    assert LevelAgrees(b, s, Key(side, p)) && LevelAgrees(b, s, Key(side, p'));
  }

  lemma LevelCountsAgree(b: Book, s: PyBook, side: Side)
    requires LevelsAgree(b, s)
    ensures |LevelPrices(b, side)| == |PyLevels(s, SideByte(side))|
  {
    var levels := PyLevels(s, SideByte(side));
    forall p: U32
      ensures p in LevelPrices(b, side) <==> p in levels
    {
      assert LevelAgrees(b, s, Key(side, p));
      assert p in LevelPrices(b, side) <==> Key(side, p) in b.queues;
    }
    assert LevelPrices(b, side) == levels.Keys;
    assert |levels| == |levels.Keys|;
  }

  /** States side by side are reported alike, up to the 64 bits of the C++ totals; and entirely alike
      when no total has wrapped. */
  lemma ReportsAgree(st: ReplayState, py: PyReplay, report: Report, pyReport: Report)
    requires SideBySide(st, py) && IsReport(st, report) && IsPyReport(py, pyReport)
    ensures report == ReportIn64Bits(pyReport)
    ensures (forall k :: Sum(QueueAt(st.book, k)) < TWO_TO_THE_64) ==> report == pyReport
  {
    hide IsBest, PyIsBest, LevelsAgree, LevelPrices;
    var bid :| IsBest(st.book, Buy, bid) && report.bestBid == Shown(bid);
    var ask :| IsBest(st.book, Sell, ask) && report.bestAsk == Shown(ask);
    BestAgrees(st.book, py.book, Buy, bid, pyReport.bestBid);
    BestAgrees(st.book, py.book, Sell, ask, pyReport.bestAsk);
    LevelCountsAgree(st.book, py.book, Buy);
    LevelCountsAgree(st.book, py.book, Sell);
    SameSize(st.book.orders, py.book.orders);
    if forall k :: Sum(QueueAt(st.book, k)) < TWO_TO_THE_64 {
      UnwrappedBest(st.book, Buy, bid, pyReport.bestBid);
      UnwrappedBest(st.book, Sell, ask, pyReport.bestAsk);
    }
  }

  lemma UnwrappedBest(b: Book, side: Side, best: Option<BookLevel>, pyBest: Option<(U32, int)>)
    requires forall k :: Sum(QueueAt(b, k)) < TWO_TO_THE_64
    requires Shown(best) == In64Bits(pyBest)
    requires best.Some? ==>
               pyBest.Some? && Key(side, best.value.price) in b.queues
               && pyBest.value.1 == Sum(b.queues[Key(side, best.value.price)])
    ensures Shown(best) == pyBest
  {
    if best.Some? {
      assert QueueAt(b, Key(side, best.value.price)) == b.queues[Key(side, best.value.price)];
    }
  }

  // book_replay's main: a new book and handler, parse_all, and the fields it prints.
  method BookReplay(file: seq<Byte>, symbol: seq<Byte>) returns (report: Report, outcome: FrameOutcome)
    requires AllDeliverable(Records(file)) && AssertsHoldThroughout(UNRESOLVED, symbol, Records(file))
    ensures IsReport(ReplayRecords(UNRESOLVED, symbol, Records(file)), report)
    ensures IsOutcome(file, outcome)
  {
    hide OrderBook.Valid, IsBest, Records, AllDeliverable, AssertsHoldThroughout, ReplayRecords, LevelPrices, IsOutcome;
    var book := new OrderBook();
    var handler := new BookReplayHandler(book, symbol);
    outcome := handler.ParseAll(file);
    var bid := book.BestBid();
    var ask := book.BestAsk();
    var orderCount, bidLevels, askLevels := book.Counts();
    book.FieldsOfModel();
    report := Report(handler.resolved, if handler.resolved then Some(book.locate) else None, book.stats, orderCount,
                     bidLevels, askLevels, Shown(bid), Shown(ask));
  }

  /** check_rep after a replay: it returns true exactly when every reference inserted was fresh. */
  method AuditedReplay(file: seq<Byte>, symbol: seq<Byte>) returns (ok: bool)
    requires AllDeliverable(Records(file)) && AssertsHoldThroughout(UNRESOLVED, symbol, Records(file))
    ensures ok <==> FreshThroughout(symbol, Records(file))
  {
    hide OrderBook.Valid, OrderBook.RepOk, OrderBook.Containers, Records, AllDeliverable, AssertsHoldThroughout,
      ReplayRecords, Faithful, IsOutcome;
    var book := new OrderBook();
    var handler := new BookReplayHandler(book, symbol);
    var outcome := handler.ParseAll(file);
    book.RepOkIsFaithful();
    ok := book.CheckRep();
    SessionFaithful(symbol, Records(file));
  }

  // reference_book's main.
  method ReferenceReplay(file: seq<Byte>, symbol: seq<Byte>)
    returns (report: Report, consumed: nat, error: Option<PyError>, raised: bool)
    ensures AllValid(Records(file))
    ensures match PyReplayRecords(PY_UNRESOLVED, Ljust(symbol, 8), Records(file))
            case None => raised
            case Some(end) => !raised && IsPyReport(end, report) && IsPyEnd(file, consumed, error)
  {
    hide PyIsBest, Records, PyReplayRecords, AllValid, IsPyEnd;
    var book, resolved;
    book, resolved, consumed, error, raised := PythonReplay.Replay(file, symbol);
    var bid := book.Best('B' as int);
    var ask := book.Best('S' as int);
    report := Report(resolved, book.locate, book.tallies, |book.orders|, |book.bidLevels|, |book.askLevels|, bid, ask);
  }

  /** The cross-check the reference book exists for. On every file whose records form an orderly session
      that keeps the replays together, complete or cut short by a framing error, and for every symbol
      both programs match alike, they report the same resolution, locate, tallies, resting orders, level
      counts and top of book, each that of its own replay of the file, and stop at the same byte for
      corresponding reasons. Totals agree in 64 bits always, and outright where none can wrap. */
  method CrossCheck(file: seq<Byte>, symbol: seq<Byte>)
    returns (report: Report, reference: Report, outcome: FrameOutcome, consumed: nat, error: Option<PyError>,
             raised: bool)
    requires AllDeliverable(Records(file)) && OrderlyThroughout(symbol, Records(file))
    requires TogetherThroughout(symbol, Records(file))
    requires |symbol| > 8 || NoTrailingSpace(symbol)
    ensures IsReport(ReplayRecords(UNRESOLVED, symbol, Records(file)), report) && IsOutcome(file, outcome)
    ensures AllValid(Records(file)) && !raised
    ensures var end := PyReplayRecords(PY_UNRESOLVED, Ljust(symbol, 8), Records(file));
            end.Some? && IsPyReport(end.value, reference) && IsPyEnd(file, consumed, error)
    ensures report == ReportIn64Bits(reference)
    ensures TotalsFit(symbol, file) ==> report == reference
    ensures consumed == outcome.bytesConsumed && (error.Some? <==> outcome.error.Some?)
    ensures outcome.error.Some? ==>
              outcome.errorOffset == consumed <= |file| && ErrorHolds(outcome.error.value, file[consumed..])
              && error == Some(PyErrorOf(outcome.error.value, file[consumed..]))
  {
    hide IsReport, IsPyReport, ReportIn64Bits, SideBySide, Records, AllDeliverable, ReplayRecords, PyReplayRecords,
      AllValid, AssertsHoldThroughout, Throughout, TogetherThroughout, TotalsFit, OrderlyThroughout;
    NoAssertFires(symbol, Records(file));
    report, outcome := BookReplay(file, symbol);
    reference, consumed, error, raised := ReferenceReplay(file, symbol);
    AgreeExactly(symbol, Records(file));
    ghost var st := ReplayRecords(UNRESOLVED, symbol, Records(file));
    ghost var py := PyReplayRecords(PY_UNRESOLVED, Ljust(symbol, 8), Records(file)).value;
    ReportsAgree(st, py, report, reference);
    WalksAgree(file, outcome, consumed, error);
    if TotalsFit(symbol, file) {
      assert Records(file)[..|Records(file)|] == Records(file);
      forall k
        ensures Sum(QueueAt(st.book, k)) < TWO_TO_THE_64
      {
        TotalsCannotWrap(symbol, file, |Records(file)|, k);
      }
    }
  }
}
