/** What a session may be: hypotheses on the records alone, stated over the flat book of live orders
    with no queue, level or index in sight. */
module Sessions {
  import opened Bytes
  import opened Messages
  import opened BookModel
  import opened PriceTimePriority
  import opened Replay

  // --------------------------------------------------------------------------------------------
  // The flat replay
  // --------------------------------------------------------------------------------------------

  datatype FlatReplay = FlatReplay(flat: Flat, locate: U16, resolved: bool)

  const FLAT_UNRESOLVED := FlatReplay(EMPTY_FLAT, 0, false)

  function FlatMessage(fs: FlatReplay, symbol: seq<Byte>, m: Message): FlatReplay {
    if Announces(fs.resolved, symbol, m) then fs.(locate := m.directory.header.locate, resolved := true)
    else fs.(flat := FlatStep(fs.flat, fs.locate, m))
  }

  function FlatRecords(symbol: seq<Byte>, rs: seq<seq<Byte>>): FlatReplay
    requires AllDeliverable(rs)
  {
    if rs == [] then FLAT_UNRESOLVED
    else FlatMessage(FlatRecords(symbol, rs[..|rs| - 1]), symbol, Decode(rs[|rs| - 1]))
  }

  /** The replayed book is coherent and refines the flat one. */
  ghost predicate Tracks(st: ReplayState, fs: FlatReplay) {
    && Coherent(st.book) && Refines(st.book, fs.flat)
    && st.book.locate == fs.locate && st.resolved == fs.resolved && (!st.resolved ==> st.book.locate == 0)
  }

  lemma MessageTracks(st: ReplayState, fs: FlatReplay, symbol: seq<Byte>, m: Message)
    requires Tracks(st, fs)
    ensures Tracks(ReplayMessage(st, symbol, m), FlatMessage(fs, symbol, m))
  {
    hide Coherent, Step, FlatStep, LiveAgrees, Lookup;
    if Announces(st.resolved, symbol, m) {
      var b' := st.book.(locate := m.directory.header.locate);
      SameBookCoherent(st.book, b');
      SameBookRefines(st.book, b', fs.flat);
    } else {
      StepCoherent(st.book, m);
      StepRefines(st.book, fs.flat, m);
      StepKeepsLocate(st.book, m);
    }
  }

  lemma SameBookRefines(b: Book, b': Book, f: Flat)
    requires SameBook(b, b') && Refines(b, f)
    ensures Refines(b', f)
  {
    assert forall r | r in b.orders :: LiveAgrees(b, f, r) ==> LiveAgrees(b', f, r);
  }

  /** The replayed book refines the flat one after every session, with no hypothesis on the records. */
  lemma {:induction false} ReplayTracks(symbol: seq<Byte>, rs: seq<seq<Byte>>)
    requires AllDeliverable(rs)
    ensures Tracks(ReplayRecords(UNRESOLVED, symbol, rs), FlatRecords(symbol, rs))
  {
    hide ValidRecord, SideByteOk, Decode, ReplayMessage, FlatMessage, Tracks;
    if rs == [] {
      NothingTracked();
    } else {
      var before, r := rs[..|rs| - 1], rs[|rs| - 1];
      ReplayTracks(symbol, before);
      MessageTracks(ReplayRecords(UNRESOLVED, symbol, before), FlatRecords(symbol, before), symbol, Decode(r));
    }
  }

  lemma NothingTracked()
    ensures Tracks(UNRESOLVED, FLAT_UNRESOLVED)
  {
  }

  // --------------------------------------------------------------------------------------------
  // Hypotheses
  // --------------------------------------------------------------------------------------------

  /** A property of every record where the flat replay meets it. */
  predicate Throughout(holds: (FlatReplay, seq<Byte>, Message) -> bool, symbol: seq<Byte>, rs: seq<seq<Byte>>)
    requires AllDeliverable(rs)
  {
    if rs == [] then true
    else
      Throughout(holds, symbol, rs[..|rs| - 1])
      && holds(FlatRecords(symbol, rs[..|rs| - 1]), symbol, Decode(rs[|rs| - 1]))
  }

  lemma {:induction false} ThroughoutPrefix(
      holds: (FlatReplay, seq<Byte>, Message) -> bool, symbol: seq<Byte>, rs: seq<seq<Byte>>, n: nat)
    requires AllDeliverable(rs) && Throughout(holds, symbol, rs) && n <= |rs|
    ensures Throughout(holds, symbol, rs[..n])
    decreases |rs|
  {
    hide Deliverable;
    if n == |rs| {
      assert rs[..n] == rs;
    } else {
      assert rs[..|rs| - 1][..n] == rs[..n];
      ThroughoutPrefix(holds, symbol, rs[..|rs| - 1], n);
    }
  }

  /** Fresh: the reference inserted is not live, once a replaced original has left. */
  predicate FreshRecord(fs: FlatReplay, symbol: seq<Byte>, m: Message) {
    Carries(m, fs.locate) ==>
      match m
      case AddMessage(a) => a.reference !in fs.flat.live
      case AddWithMpidMessage(a) => a.order.reference !in fs.flat.live
      case ReplaceMessage(u) =>
        u.original in fs.flat.live ==> u.replacement !in fs.flat.live || u.replacement == u.original
      case _ => true
  }

  predicate Rests(f: Flat, reference: U64, shares: U32) {
    reference in f.live ==> shares <= f.live[reference].shares
  }

  /** Orderly: no more shares are executed or cancelled than the order has, and the record that
      announces the symbol does not carry the unresolved sentinel as its locate. */
  predicate OrderlyRecord(fs: FlatReplay, symbol: seq<Byte>, m: Message) {
    && (Announces(fs.resolved, symbol, m) ==> m.directory.header.locate != 0)
    && (Carries(m, fs.locate) ==>
          match m
          case ExecutedMessage(e) => Rests(fs.flat, e.reference, e.executedShares)
          case ExecutedWithPriceMessage(e) => Rests(fs.flat, e.executed.reference, e.executed.executedShares)
          case CancelMessage(c) => Rests(fs.flat, c.reference, c.cancelledShares)
          case _ => true)
  }

  /** Positive: what is inserted has shares. */
  predicate PositiveRecord(fs: FlatReplay, symbol: seq<Byte>, m: Message) {
    Carries(m, fs.locate) ==>
      match m
      case AddMessage(a) => a.shares > 0
      case AddWithMpidMessage(a) => a.order.shares > 0
      case ReplaceMessage(u) => u.original in fs.flat.live ==> u.shares > 0
      case _ => true
  }

  /** Attributed: before the symbol is announced no order message carries locate 0. */
  predicate AttributedRecord(fs: FlatReplay, symbol: seq<Byte>, m: Message) {
    !fs.resolved ==> !Carries(m, 0)
  }

  predicate FreshThroughout(symbol: seq<Byte>, rs: seq<seq<Byte>>)
    requires AllDeliverable(rs)
  {
    Throughout(FreshRecord, symbol, rs)
  }

  predicate OrderlyThroughout(symbol: seq<Byte>, rs: seq<seq<Byte>>)
    requires AllDeliverable(rs)
  {
    Throughout(OrderlyRecord, symbol, rs)
  }

  // --------------------------------------------------------------------------------------------
  // What they mean for the indexed book
  // --------------------------------------------------------------------------------------------

  lemma CoversIsRests(b: Book, f: Flat, reference: U64, removed: U32)
    requires Coherent(b) && Refines(b, f)
    ensures Covers(b, reference, removed) <==> Rests(f, reference, removed)
  {
    assert reference in b.orders ==> LiveAgrees(b, f, reference);
  }

  lemma MeansTheSame(st: ReplayState, fs: FlatReplay, symbol: seq<Byte>, m: Message)
    requires Tracks(st, fs)
    ensures Fresh(st.book, m) <==> FreshRecord(fs, symbol, m)
    ensures PositiveShares(st.book, m) <==> PositiveRecord(fs, symbol, m)
    ensures AssertsHold(st, symbol, m) <==> OrderlyRecord(fs, symbol, m)
  {
    hide Coherent, Covers, Rests, LiveAgrees;
    match m {
      case ExecutedMessage(e) => CoversIsRests(st.book, fs.flat, e.reference, e.executedShares);
      case ExecutedWithPriceMessage(e) =>
        CoversIsRests(st.book, fs.flat, e.executed.reference, e.executed.executedShares);
      case CancelMessage(c) => CoversIsRests(st.book, fs.flat, c.reference, c.cancelledShares);
      case _ =>
    }
  }

  /** The asserts of the C++ program hold over a whole session exactly when the session is orderly. */
  lemma {:induction false} NoAssertFires(symbol: seq<Byte>, rs: seq<seq<Byte>>)
    requires AllDeliverable(rs)
    ensures AssertsHoldThroughout(UNRESOLVED, symbol, rs) <==> OrderlyThroughout(symbol, rs)
  {
    hide ValidRecord, SideByteOk, Decode, ReplayMessage, AssertsHold, OrderlyRecord, Tracks;
    if rs != [] {
      var before, r := rs[..|rs| - 1], rs[|rs| - 1];
      NoAssertFires(symbol, before);
      ReplayTracks(symbol, before);
      MeansTheSame(ReplayRecords(UNRESOLVED, symbol, before), FlatRecords(symbol, before), symbol, Decode(r));
    }
  }

  /** A replayed book keeps the full representation invariant exactly when every insertion was fresh. */
  lemma {:induction false} SessionFaithful(symbol: seq<Byte>, rs: seq<seq<Byte>>)
    requires AllDeliverable(rs)
    ensures Faithful(ReplayRecords(UNRESOLVED, symbol, rs).book) <==> FreshThroughout(symbol, rs)
  {
    hide ValidRecord, SideByteOk, Decode, Faithful, FreshRecord, Coherent, Refines, Fresh, Step;
    if rs != [] {
      var before, r := rs[..|rs| - 1], rs[|rs| - 1];
      SessionFaithful(symbol, before);
      ReplayTracks(symbol, before);
      var st := ReplayRecords(UNRESOLVED, symbol, before);
      MeansTheSame(st, FlatRecords(symbol, before), symbol, Decode(r));
      StepFaithful(st.book, Decode(r));
      if Decode(r).DirectoryMessage? {
        DirectoriesAreFresh(st.book, Decode(r));
        SameBookFaithful(st.book, st.book.(locate := Decode(r).directory.header.locate));
      }
    } else {
      EmptyFaithful();
    }
  }

  lemma DirectoriesAreFresh(b: Book, m: Message)
    requires m.DirectoryMessage?
    ensures Fresh(b, m) && Step(b, m) == b
  {
  }

  lemma EmptyFaithful()
    ensures Faithful(EMPTY_BOOK)
  {
  }
}
