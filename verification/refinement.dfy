/** The C++ book against the Python book: two rules for dropping a level, one behaviour. */
module Refinement {
  import opened Bytes
  import opened Messages
  import opened Codec
  import opened BookModel
  import opened PriceTimePriority
  import opened ReferenceBooks

  // --------------------------------------------------------------------------------------------
  // The simulation relation
  // --------------------------------------------------------------------------------------------

  ghost predicate OrdersAgree(b: Book, s: PyBook) {
    && s.orders.Keys == b.orders.Keys
    && forall r | r in b.orders :: OrderAgrees(b, s, r)
  }

  ghost predicate OrderAgrees(b: Book, s: PyBook, r: U64)
    requires r in b.orders && r in s.orders
  {
    var k := b.orders[r].key;
    Lookup(b, r).Some? && s.orders[r] == PyOrder(SideByte(k.side), k.price, Lookup(b, r).value.shares)
  }

  /** The dictionaries are the price-to-total maps of the C++ book, totals unbounded. */
  ghost predicate LevelsAgree(b: Book, s: PyBook) {
    forall k: Key :: LevelAgrees(b, s, k)
  }

  ghost predicate LevelAgrees(b: Book, s: PyBook, k: Key) {
    var levels := PyLevels(s, SideByte(k.side));
    (k.price in levels <==> k in b.queues) && (k in b.queues ==> levels[k.price] == Sum(b.queues[k]))
  }

  ghost predicate Matches(b: Book, s: PyBook) {
    OrdersAgree(b, s) && LevelsAgree(b, s)
  }

  ghost predicate Simulates(b: Book, s: PyBook) {
    Matches(b, s) && s.tallies == b.stats
  }

  // --------------------------------------------------------------------------------------------
  // Inserting
  // --------------------------------------------------------------------------------------------

  /** emplace keeps an index entry that is already there, the dictionary overwrites it. That makes no
      difference exactly when the entry says what the new one would. */
  predicate SameEntry(b: Book, k: Key, reference: U64, shares: U32) {
    match Lookup(b, reference)
    case None => true
    case Some(o) => b.orders[reference].key == k && o.shares == shares
  }

  lemma InsertOrdersExactly(b: Book, s: PyBook, k: Key, reference: U64, shares: U32)
    requires Coherent(b) && OrdersAgree(b, s)
    ensures OrdersAgree(Insert(b, k, reference, shares), PyInsert(s, reference, SideByte(k.side), k.price, shares))
       <==> SameEntry(b, k, reference, shares)
  {
    hide Lookup;
    var b', s' := Insert(b, k, reference, shares), PyInsert(s, reference, SideByte(k.side), k.price, shares);
    FoundIfLive(b, reference);
    LookupInsert(b, k, reference, shares, reference);
    assert OrderAgrees(b', s', reference) <==> SameEntry(b, k, reference, shares);
    forall r | r in b'.orders && r != reference
      ensures OrderAgrees(b', s', r)
    {
      LookupInsert(b, k, reference, shares, r);
      assert OrderAgrees(b, s, r);
    }
  }

  lemma FoundIfLive(b: Book, reference: U64)
    requires Coherent(b)
    ensures Lookup(b, reference).Some? <==> reference in b.orders
  {
  }

  // The level inserted at agrees afterwards if its totals did, a missing one counting as zero.
  lemma InsertLevels(b: Book, s: PyBook, k: Key, reference: U64, shares: U32)
    ensures var b', s' := Insert(b, k, reference, shares), PyInsert(s, reference, SideByte(k.side), k.price, shares);
            var levels := PyLevels(s, SideByte(k.side));
            && (forall k' | k' != k :: LevelAgrees(b', s', k') <==> LevelAgrees(b, s, k'))
            && (LevelAgrees(b', s', k)
                <==> Sum(QueueAt(b, k)) == if k.price in levels then levels[k.price] else 0)
  {
    FindAppend(QueueAt(b, k), Order(b.arrivals, reference, shares), 0);
  }

  /** With whatever reference and shares: an insertion keeps the two books in step exactly when it
      does not fall on a live reference that says otherwise. */
  lemma InsertExactly(b: Book, s: PyBook, k: Key, reference: U64, shares: U32)
    requires Coherent(b) && Matches(b, s)
    ensures Matches(Insert(b, k, reference, shares), PyInsert(s, reference, SideByte(k.side), k.price, shares))
       <==> SameEntry(b, k, reference, shares)
  {
    hide Coherent, OrdersAgree, SameEntry, Insert, PyInsert, LevelAgrees;
    InsertOrdersExactly(b, s, k, reference, shares);
    InsertLevels(b, s, k, reference, shares);
    assert LevelAgrees(b, s, k);
    TotalAtLevel(b, s, k);
  }

  lemma TotalAtLevel(b: Book, s: PyBook, k: Key)
    requires LevelAgrees(b, s, k)
    ensures var levels := PyLevels(s, SideByte(k.side));
            Sum(QueueAt(b, k)) == if k.price in levels then levels[k.price] else 0
  {
  }

  // --------------------------------------------------------------------------------------------
  // Reducing
  // --------------------------------------------------------------------------------------------

  /** The Python book drops the level when its total reaches zero, the C++ book when its queue
      empties. They part exactly when the total is used up with other orders still queued. */
  predicate SameDrop(b: Book, reference: U64, removed: U32, all: bool) {
    match Lookup(b, reference)
    case None => true
    case Some(o) =>
      var q := QueueAt(b, b.orders[reference].key);
      |q| == 1 || RemovedShares(o, removed, all) < Sum(q)
  }

  lemma ShrunkQueue(q: seq<Order>, arrival: nat, remaining: U32)
    requires Sorted(q) && Find(q, arrival).Some?
    ensures var o, q' := Find(q, arrival).value, Shrink(q, arrival, remaining);
            && Sum(q') == Sum(q) - o.shares + remaining
            && (q' == [] <==> |q| == 1 && remaining == 0)
            && (|q| == 1 ==> Sum(q) == o.shares)
  {
    hide Sorted;
    var i := FindPosition(q, arrival);
    ShrinkAt(q, i, remaining);
    if |q| == 1 {
      assert q == [q[0]] && q[1..] == [];
    }
  }

  // The reduced queue, and its sum.
  lemma ReducedQueue(b: Book, reference: U64, removed: U32, all: bool)
    requires Coherent(b) && Lookup(b, reference).Some? && (all || Covers(b, reference, removed))
    ensures var k := b.orders[reference].key;
            var q := QueueAt(b, k);
            var o := Lookup(b, reference).value;
            var rm := RemovedShares(o, removed, all);
            var q' := Shrink(q, b.orders[reference].arrival, Remaining(o, removed, all));
            && k in b.queues && Remaining(o, removed, all) == o.shares - rm
            && Reduce(b, reference, removed, all).queues == SetQueue(b.queues, k, q')
            && Sum(q') == Sum(q) - rm && (q' == [] <==> |q| == 1 && rm == o.shares)
            && (|q| == 1 ==> Sum(q) == o.shares)
  {
    hide Sorted, Shrink, Sum, Find;
    EntryArrival(b, reference);
    ShrunkQueue(b.queues[b.orders[reference].key], b.orders[reference].arrival,
                Remaining(Lookup(b, reference).value, removed, all));
  }

  // The level an order leaves behind: where the drop rules part, an empty total on one side of the
  // comparison and no level on the other.
  lemma ReduceLevels(b: Book, s: PyBook, reference: U64, removed: U32, all: bool)
    requires Coherent(b) && Matches(b, s) && reference in b.orders && (all || Covers(b, reference, removed))
    ensures PyReduce(s, reference, removed, all).Some?
    ensures var b', s' := Reduce(b, reference, removed, all), PyReduce(s, reference, removed, all).value;
            var k := b.orders[reference].key;
            && (forall k' | k' != k :: LevelAgrees(b', s', k'))
            && (LevelAgrees(b', s', k) <==> SameDrop(b, reference, removed, all))
            && (!SameDrop(b, reference, removed, all) ==>
                  Sum(QueueAt(b', k)) == 0 && k.price !in PyLevels(s', SideByte(k.side)))
  {
    hide Coherent, Lookup, Shrink, Sum, Remaining;
    assert OrderAgrees(b, s, reference);
    var k := b.orders[reference].key;
    assert LevelAgrees(b, s, k);
    ReducedQueue(b, reference, removed, all);
    var b', s' := Reduce(b, reference, removed, all), PyReduce(s, reference, removed, all).value;
    SumEmpty();
    assert LevelAgrees(b', s', k) <==> SameDrop(b, reference, removed, all);
    forall k': Key | k' != k
      ensures LevelAgrees(b', s', k')
    {
      assert LevelAgrees(b, s, k');
      assert k'.side != k.side || k'.price != k.price;
    }
  }

  lemma SumEmpty()
    ensures Sum([]) == 0
  {
  }

  lemma ReduceOrders(b: Book, s: PyBook, reference: U64, removed: U32, all: bool)
    requires Coherent(b) && OrdersAgree(b, s) && reference in b.orders
    requires (all || Covers(b, reference, removed)) && PyReduce(s, reference, removed, all).Some?
    ensures OrdersAgree(Reduce(b, reference, removed, all), PyReduce(s, reference, removed, all).value)
  {
    hide Coherent, Lookup, Shrink, Sum;
    var b', s' := Reduce(b, reference, removed, all), PyReduce(s, reference, removed, all).value;
    assert OrderAgrees(b, s, reference);
    forall r | r in b'.orders
      ensures OrderAgrees(b', s', r)
    {
      LookupReduce(b, reference, removed, all, r);
      assert OrderAgrees(b, s, r);
    }
  }

  /** With whatever shares orders were inserted: a reduction raises nothing, and keeps the two books
      in step exactly when the drop rules coincide. */
  lemma ReduceExactly(b: Book, s: PyBook, reference: U64, removed: U32, all: bool)
    requires Coherent(b) && Matches(b, s) && (all || Covers(b, reference, removed))
    ensures var after := PyReduce(s, reference, removed, all);
            after.Some? && (Matches(Reduce(b, reference, removed, all), after.value)
                            <==> SameDrop(b, reference, removed, all))
  {
    hide Coherent, OrdersAgree, LevelAgrees, SameDrop, Lookup;
    if reference in b.orders {
      ReduceLevels(b, s, reference, removed, all);
      ReduceOrders(b, s, reference, removed, all);
    } else {
      Unindexed(b, s, reference, removed, all);
    }
  }

  lemma Unindexed(b: Book, s: PyBook, reference: U64, removed: U32, all: bool)
    requires OrdersAgree(b, s) && reference !in b.orders
    ensures Reduce(b, reference, removed, all) == b
    ensures PyReduce(s, reference, removed, all) == Some(s) && SameDrop(b, reference, removed, all)
  {
  }

  // --------------------------------------------------------------------------------------------
  // One message
  // --------------------------------------------------------------------------------------------

  /** Exactly when a replace keeps the two books in step. A level that the drop rules treat unlike
      comes back if the new order rests at the same price. */
  predicate ReplaceInStep(b: Book, u: OrderReplace) {
    u.original in b.orders ==>
      var k := Key(b.orders[u.original].key.side, u.price);
      && (SameDrop(b, u.original, 0, true) || k == b.orders[u.original].key)
      && (u.replacement == u.original || SameEntry(b, k, u.replacement, u.shares))
  }

  lemma ReplaceExactly(b: Book, s: PyBook, u: OrderReplace)
    requires Coherent(b) && Matches(b, s) && u.original in b.orders
    ensures var k := Key(b.orders[u.original].key.side, u.price);
            var b' := Insert(Reduce(b, u.original, 0, true), k, u.replacement, u.shares);
            var after := PyReduce(s, u.original, 0, true);
            && u.original in s.orders && s.orders[u.original].side == SideByte(k.side)
            && after.Some?
            && (Matches(b', PyInsert(after.value, u.replacement, SideByte(k.side), k.price, u.shares))
                <==> ReplaceInStep(b, u))
  {
    hide Coherent, PyReduce, PyInsert, Insert, Reduce, OrdersAgree, LevelAgrees, Lookup, SameEntry, SameDrop;
    var k0 := b.orders[u.original].key;
    var k := Key(k0.side, u.price);
    OriginalAgrees(b, s, u.original);
    ReduceLevels(b, s, u.original, 0, true);
    ReduceOrders(b, s, u.original, 0, true);
    ReduceCoherent(b, u.original, 0, true);
    var mid, mid' := Reduce(b, u.original, 0, true), PyReduce(s, u.original, 0, true).value;
    InsertOrdersExactly(mid, mid', k, u.replacement, u.shares);
    InsertLevels(mid, mid', k, u.replacement, u.shares);
    EntryAfterOriginal(b, u.original, k, u.replacement, u.shares);
    if k != k0 || SameDrop(b, u.original, 0, true) {
      TotalAtLevel(mid, mid', k);
    }
    var b', s' := Insert(mid, k, u.replacement, u.shares),
                  PyInsert(mid', u.replacement, SideByte(k.side), k.price, u.shares);
    assert LevelAgrees(b', s', k);
    assert LevelsAgree(b', s') <==> SameDrop(b, u.original, 0, true) || k == k0 by {
      assert k != k0 ==> (LevelAgrees(b', s', k0) <==> SameDrop(b, u.original, 0, true));
    }
  }

  lemma OriginalAgrees(b: Book, s: PyBook, original: U64)
    requires Coherent(b) && OrdersAgree(b, s) && original in b.orders
    ensures original in s.orders && s.orders[original].side == SideByte(b.orders[original].key.side)
    ensures Lookup(b, original).Some?
  {
    assert OrderAgrees(b, s, original);
  }

  // With the original gone, the entries of all other references are as before.
  lemma EntryAfterOriginal(b: Book, original: U64, k: Key, replacement: U64, shares: U32)
    requires Coherent(b) && Lookup(b, original).Some?
    ensures SameEntry(Reduce(b, original, 0, true), k, replacement, shares)
       <==> replacement == original || SameEntry(b, k, replacement, shares)
  {
    hide Coherent, Lookup;
    LookupReduce(b, original, 0, true, replacement);
    assert replacement != original && Lookup(b, replacement).Some? ==>
        Reduce(b, original, 0, true).orders[replacement] == b.orders[replacement] by {
      EntryKept(b, original, replacement);
    }
  }

  lemma EntryKept(b: Book, original: U64, other: U64)
    ensures other != original && other in b.orders ==>
              other in Reduce(b, original, 0, true).orders
              && Reduce(b, original, 0, true).orders[other] == b.orders[other]
    ensures Lookup(b, other).Some? ==> other in b.orders
  {
  }

  /** Exactly when an accepted message keeps the two books in step. */
  predicate StaysInStep(b: Book, m: Message) {
    match m
    case AddMessage(a) => SameEntry(b, Key(a.side, a.price), a.reference, a.shares)
    case AddWithMpidMessage(a) => SameEntry(b, Key(a.order.side, a.order.price), a.order.reference, a.order.shares)
    case ExecutedMessage(e) => SameDrop(b, e.reference, e.executedShares, false)
    case ExecutedWithPriceMessage(e) => SameDrop(b, e.executed.reference, e.executed.executedShares, false)
    case CancelMessage(c) => SameDrop(b, c.reference, c.cancelledShares, false)
    case DeleteMessage(d) => SameDrop(b, d.reference, 0, true)
    case ReplaceMessage(u) => ReplaceInStep(b, u)
    case _ => true
  }

  // What an accepted message does to the dictionaries, leaving the tallies aside.
  function PyBookkeeping(s: PyBook, m: Message): Option<PyBook> {
    match m
    case AddMessage(a) => Some(PyInsert(s, a.reference, SideByte(a.side), a.price, a.shares))
    case AddWithMpidMessage(a) =>
      Some(PyInsert(s, a.order.reference, SideByte(a.order.side), a.order.price, a.order.shares))
    case ExecutedMessage(e) => PyReduce(s, e.reference, e.executedShares, false)
    case ExecutedWithPriceMessage(e) => PyReduce(s, e.executed.reference, e.executed.executedShares, false)
    case CancelMessage(c) => PyReduce(s, c.reference, c.cancelledShares, false)
    case DeleteMessage(d) => PyReduce(s, d.reference, 0, true)
    case ReplaceMessage(u) =>
      if u.original !in s.orders then Some(s)
      else
        var after :- PyReduce(s, u.original, 0, true);
        Some(PyInsert(after, u.replacement, s.orders[u.original].side, u.price, u.shares))
    case _ => Some(s)
  }

  lemma TalliesAside(s: PyBook, m: Message)
    ensures PyStep(s, m).Some? <==> PyBookkeeping(s, m).Some?
    ensures PyStep(s, m).Some? ==>
              PyStep(s, m).value == PyBookkeeping(s, m).value.(tallies := PyStep(s, m).value.tallies)
  {
    hide PyReduce, PyInsert;
  }

  lemma SameTallies(b: Book, s: PyBook, m: Message)
    requires Accepts(b, m) && s.tallies == b.stats && PyStep(s, m).Some?
    requires s.orders.Keys == b.orders.Keys
    ensures PyStep(s, m).value.tallies == Step(b, m).stats
  {
    hide PyReduce, PyInsert, Reduce, Insert;
  }

  // Neither tallies nor locates play a part in whether the books match.
  lemma MatchesAside(p: Book, b: Book, sp: PyBook, s: PyBook)
    requires SameBook(p, b)
    requires s.orders == sp.orders && s.bidLevels == sp.bidLevels && s.askLevels == sp.askLevels
    ensures Matches(p, sp) <==> Matches(b, s)
  {
    assert forall r | r in b.orders && r in s.orders :: OrderAgrees(p, sp, r) <==> OrderAgrees(b, s, r);
    assert forall k: Key :: LevelAgrees(p, sp, k) <==> LevelAgrees(b, s, k);
  }

  lemma BookkeepingExactly(b: Book, s: PyBook, m: Message)
    requires Coherent(b) && Matches(b, s) && Accepts(b, m) && NoOverRemoval(b, m)
    ensures PyBookkeeping(s, m).Some?
    ensures Matches(Bookkeeping(b, m), PyBookkeeping(s, m).value) <==> StaysInStep(b, m)
  {
    hide Coherent, Matches, PyReduce, Reduce, PyInsert, Insert, Covers, SameEntry, SameDrop;
    SameReferences(b, s);
    match m {
      case AddMessage(a) => InsertExactly(b, s, Key(a.side, a.price), a.reference, a.shares);
      case AddWithMpidMessage(a) =>
        InsertExactly(b, s, Key(a.order.side, a.order.price), a.order.reference, a.order.shares);
      case ExecutedMessage(e) => ReduceExactly(b, s, e.reference, e.executedShares, false);
      case ExecutedWithPriceMessage(e) => ReduceExactly(b, s, e.executed.reference, e.executed.executedShares, false);
      case CancelMessage(c) => ReduceExactly(b, s, c.reference, c.cancelledShares, false);
      case DeleteMessage(d) => ReduceExactly(b, s, d.reference, 0, true);
      case ReplaceMessage(u) =>
        if u.original in b.orders {
          ReplaceExactly(b, s, u);
        }
      case TradeMessage(_) =>
    }
  }

  /** One message that the asserts admit: the Python book raises no KeyError, and follows the C++ book
      exactly when the message keeps them in step. */
  lemma StepExactly(b: Book, s: PyBook, m: Message)
    requires Coherent(b) && Simulates(b, s) && Accepts(b, m) && NoOverRemoval(b, m)
    ensures PyStep(s, m).Some? && (Simulates(Step(b, m), PyStep(s, m).value) <==> StaysInStep(b, m))
  {
    hide Coherent, Matches, PyStep, Step, PyBookkeeping, Bookkeeping, NoOverRemoval, StaysInStep;
    BookkeepingExactly(b, s, m);
    TalliesAside(s, m);
    SameReferences(b, s);
    SameTallies(b, s, m);
    SameBookSteps(b, m);
    MatchesAside(Bookkeeping(b, m), Step(b, m), PyBookkeeping(s, m).value, PyStep(s, m).value);
  }

  lemma SameReferences(b: Book, s: PyBook)
    requires Matches(b, s)
    ensures s.orders.Keys == b.orders.Keys
  {
  }

  // --------------------------------------------------------------------------------------------
  // With positive shares
  // --------------------------------------------------------------------------------------------

  ghost predicate Positive(b: Book) {
    forall k, o | o in QueueAt(b, k) :: o.shares > 0
  }

  lemma InsertPositive(b: Book, k: Key, reference: U64, shares: U32)
    requires Positive(b) && shares > 0
    ensures Positive(Insert(b, k, reference, shares))
  {
    var b' := Insert(b, k, reference, shares);
    forall k', o | o in QueueAt(b', k')
      ensures o.shares > 0
    {
      assert o in QueueAt(b, k') || o == Order(b.arrivals, reference, shares);
    }
  }

  lemma ReducePositive(b: Book, reference: U64, removed: U32, all: bool)
    requires Coherent(b) && Positive(b)
    ensures Positive(Reduce(b, reference, removed, all))
  {
    hide Coherent, QueueAt, Reduce;
    if Lookup(b, reference).Some? {
      ReduceMembers(b, reference, removed, all);
    } else {
      assert Reduce(b, reference, removed, all) == b by {
        NoLookupNoReduce(b, reference, removed, all);
      }
    }
  }

  lemma NoLookupNoReduce(b: Book, reference: U64, removed: U32, all: bool)
    requires Lookup(b, reference).None?
    ensures Reduce(b, reference, removed, all) == b
  {
  }

  lemma {:induction false} PositiveSum(q: seq<Order>)
    requires forall o | o in q :: o.shares > 0
    ensures Sum(q) >= |q|
  {
    if q != [] {
      assert q[0] in q && forall o | o in q[1..] :: o in q;
      PositiveSum(q[1..]);
    }
  }

  /** With positive shares the two drop rules coincide in every state: a level's total is zero only
      if its queue is empty. */
  lemma PositiveSameDrop(b: Book, reference: U64, removed: U32, all: bool)
    requires Coherent(b) && Positive(b) && (all || Covers(b, reference, removed))
    ensures SameDrop(b, reference, removed, all)
  {
    hide Sorted;
    if Lookup(b, reference).Some? {
      var l, o := b.orders[reference], Lookup(b, reference).value;
      EntryArrival(b, reference);
      var q := b.queues[l.key];
      assert Sorted(q);
      var i := FindPosition(q, l.arrival);
      ShrinkAt(q, i, 0);
      var rest := Cut(q, i, 0);
      assert rest == q[..i] + q[i + 1..];
      assert forall x | x in rest :: x in QueueAt(b, l.key);
      PositiveSum(rest);
    }
  }

  /** Fresh references and positive shares keep the two books in step. */
  lemma PositiveStaysInStep(b: Book, m: Message)
    requires Coherent(b) && Positive(b) && Accepts(b, m) && Fresh(b, m) && NoOverRemoval(b, m)
    ensures StaysInStep(b, m)
  {
    hide Coherent, Positive, Covers, SameDrop;
    match m {
      case AddMessage(_) =>
      case AddWithMpidMessage(_) =>
      case ExecutedMessage(e) => PositiveSameDrop(b, e.reference, e.executedShares, false);
      case ExecutedWithPriceMessage(e) =>
        PositiveSameDrop(b, e.executed.reference, e.executed.executedShares, false);
      case CancelMessage(c) => PositiveSameDrop(b, c.reference, c.cancelledShares, false);
      case DeleteMessage(d) => PositiveSameDrop(b, d.reference, 0, true);
      case ReplaceMessage(u) => PositiveSameDrop(b, u.original, 0, true);
      case TradeMessage(_) =>
    }
  }

  lemma SameBookPositive(p: Book, b: Book)
    requires SameBook(p, b) && Positive(p)
    ensures Positive(b)
  {
    assert forall k :: QueueAt(b, k) == QueueAt(p, k);
  }

  /** Queued shares stay positive whenever what is inserted is. */
  lemma StepPositive(b: Book, m: Message)
    requires Coherent(b) && Positive(b) && PositiveShares(b, m)
    ensures Positive(Step(b, m))
  {
    hide Coherent, Positive, Insert, Reduce;
    if Accepts(b, m) {
      match m {
        case AddMessage(a) => InsertPositive(b, Key(a.side, a.price), a.reference, a.shares);
        case AddWithMpidMessage(a) =>
          InsertPositive(b, Key(a.order.side, a.order.price), a.order.reference, a.order.shares);
        case ExecutedMessage(e) => ReducePositive(b, e.reference, e.executedShares, false);
        case ExecutedWithPriceMessage(e) => ReducePositive(b, e.executed.reference, e.executed.executedShares, false);
        case CancelMessage(c) => ReducePositive(b, c.reference, c.cancelledShares, false);
        case DeleteMessage(d) => ReducePositive(b, d.reference, 0, true);
        case ReplaceMessage(u) =>
          if u.original in b.orders {
            ReducePositive(b, u.original, 0, true);
            InsertPositive(Reduce(b, u.original, 0, true), Key(b.orders[u.original].key.side, u.price), u.replacement,
                           u.shares);
          }
        case TradeMessage(_) =>
      }
      SameBookSteps(b, m);
      SameBookPositive(Bookkeeping(b, m), Step(b, m));
    }
  }

  // --------------------------------------------------------------------------------------------
  // Without fresh references or positive shares
  // --------------------------------------------------------------------------------------------

  /** An add that reuses a live reference at another place makes the books part. */
  lemma ReusedReferenceDiverges(b: Book, s: PyBook, a: AddOrder)
    requires Coherent(b) && Simulates(b, s) && a.header.locate == b.locate
    requires a.reference in b.orders && b.orders[a.reference].key != Key(a.side, a.price)
    ensures !Simulates(Step(b, AddMessage(a)), PyStep(s, AddMessage(a)).value)
  {
    hide Simulates, Coherent, Step;
    FoundIfLive(b, a.reference);
    StepExactly(b, s, AddMessage(a));
  }

  /** A zero-share order makes the two books part: it keeps its level in the C++ book, while the
      Python book drops the level with the last share, and then fails on the order itself. Every
      other hypothesis holds of the four messages. */
  lemma ZeroSharesDiverge(h: Header, stock: Stock, b: Book)
    returns (m: seq<Message>, b1: Book, b2: Book, b3: Book, s1: PyBook, s2: PyBook, s3: PyBook)
    requires b == EMPTY_BOOK.(locate := h.locate)
    ensures |m| == 4 && Step(b, m[0]) == b1 && Step(b1, m[1]) == b2 && Step(b2, m[2]) == b3
    ensures Fresh(b, m[0]) && Fresh(b1, m[1]) && Fresh(b2, m[2]) && Fresh(b3, m[3])
    ensures NoOverRemoval(b2, m[2]) && NoOverRemoval(b3, m[3])
    ensures PyStep(EMPTY_PY_BOOK, m[0]) == Some(s1) && PyStep(s1, m[1]) == Some(s2) && PyStep(s2, m[2]) == Some(s3)
    ensures Key(Buy, 100) in b3.queues && 1 in b3.orders && s3.bidLevels == map[]
    ensures Step(b3, m[3]).queues == map[] && PyStep(s3, m[3]) == None
  {
    m := [AddMessage(AddOrder(h, 1, Buy, 0, stock, 100)), AddMessage(AddOrder(h, 2, Buy, 5, stock, 100)),
          DeleteMessage(OrderDelete(h, 2)), DeleteMessage(OrderDelete(h, 1))];
    b1, b2, b3 := DivergingBooks(h, stock, b);
    s1, s2, s3 := DivergingDictionaries(h, stock);
  }

  lemma DivergingBooks(h: Header, stock: Stock, b: Book) returns (b1: Book, b2: Book, b3: Book)
    requires b == EMPTY_BOOK.(locate := h.locate)
    ensures Step(b, AddMessage(AddOrder(h, 1, Buy, 0, stock, 100))) == b1
    ensures Step(b1, AddMessage(AddOrder(h, 2, Buy, 5, stock, 100))) == b2 && b1.orders.Keys == {1}
    ensures Step(b2, DeleteMessage(OrderDelete(h, 2))) == b3
    ensures b1.locate == b2.locate == b3.locate == h.locate
    ensures Key(Buy, 100) in b3.queues && b3.orders.Keys == {1}
    ensures Step(b3, DeleteMessage(OrderDelete(h, 1))).queues == map[]
  {
    hide Find, Shrink, Sum, Reduce;
    var k := Key(Buy, 100);
    var o0, o1 := Order(0, 1, 0), Order(1, 2, 5);
    b1 := b.(queues := map[k := [o0]], orders := map[1 := Location(k, 0)], arrivals := 1,
             stats := NO_STATS.(adds := 1));
    assert [] + [o0] == [o0];
    b2 := b1.(queues := map[k := [o0, o1]], orders := map[1 := Location(k, 0), 2 := Location(k, 1)], arrivals := 2,
              stats := NO_STATS.(adds := 2));
    assert [o0] + [o1] == [o0, o1];
    b3 := b1.(queues := map[k := [o0]], arrivals := 2, stats := NO_STATS.(adds := 2, deletes := 1));
    DeleteTwo(b2, k, o0, o1);
    assert b2.orders - {2} == b3.orders;
    DeleteOne(b3, k, o0);
  }

  lemma DeleteTwo(b: Book, k: Key, o0: Order, o1: Order)
    requires b.queues == map[k := [o0, o1]] && o1.reference in b.orders && o0.arrival < o1.arrival
    requires b.orders[o1.reference] == Location(k, o1.arrival)
    ensures Reduce(b, o1.reference, 0, true)
         == b.(queues := map[k := [o0]], orders := b.orders - {o1.reference})
  {
    hide Find, Shrink;
    ShrinkAt([o0, o1], 1, 0);
    assert Cut([o0, o1], 1, 0) == [o0];
  }

  lemma DeleteOne(b: Book, k: Key, o: Order)
    requires b.queues == map[k := [o]] && o.reference in b.orders && b.orders[o.reference] == Location(k, o.arrival)
    ensures Reduce(b, o.reference, 0, true).queues == map[]
  {
    hide Find, Shrink;
    ShrinkAt([o], 0, 0);
    assert Cut([o], 0, 0) == [];
  }

  lemma DivergingDictionaries(h: Header, stock: Stock) returns (s1: PyBook, s2: PyBook, s3: PyBook)
    ensures PyStep(EMPTY_PY_BOOK, AddMessage(AddOrder(h, 1, Buy, 0, stock, 100))) == Some(s1)
    ensures PyStep(s1, AddMessage(AddOrder(h, 2, Buy, 5, stock, 100))) == Some(s2)
    ensures PyStep(s2, DeleteMessage(OrderDelete(h, 2))) == Some(s3) && s3.bidLevels == map[]
    ensures PyStep(s3, DeleteMessage(OrderDelete(h, 1))) == None
  {
    s1 := PyAdd(EMPTY_PY_BOOK, 1, BUY, 100, 0);
    s2 := PyAdd(s1, 2, BUY, 100, 5);
    assert s2.bidLevels == map[100 := 5];
    s3 := PyDelete(s2, 2).value;
    assert s3.bidLevels == map[100 := 5] - {100};
  }
}
