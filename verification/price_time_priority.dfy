/** What the queues mean: the representation invariant over whole runs, and price-time priority. */
module PriceTimePriority {
  import opened Bytes
  import opened Messages
  import opened BookModel

  // --------------------------------------------------------------------------------------------
  // Fresh references and the representation invariant
  // --------------------------------------------------------------------------------------------

  predicate FreshRun(b: Book, ms: seq<Message>) {
    if ms == [] then true else FreshRun(b, ms[..|ms| - 1]) && Fresh(Run(b, ms[..|ms| - 1]), ms[|ms| - 1])
  }

  lemma InsertFaithful(b: Book, k: Key, reference: U64, shares: U32)
    requires Coherent(b)
    ensures Faithful(Insert(b, k, reference, shares)) <==> Faithful(b) && reference !in b.orders
  {
    hide Lookup, Sorted;
    var b' := Insert(b, k, reference, shares);
    InsertCoherent(b, k, reference, shares);
    var q := QueueAt(b, k);
    var o := Order(b.arrivals, reference, shares);
    assert b'.queues[k][|q|] == o;
    assert forall x | x in b'.queues[k] :: x in q || x == o;
    if Faithful(b') {
      assert Indexed(b', k, o);
      if reference in b.orders {
        EntryArrival(b, reference);
        assert false;
      }
      forall k', x | k' in b.queues && x in b.queues[k']
        ensures Indexed(b, k', x)
      {
        assert x in b'.queues[k'];
        assert Indexed(b', k', x);
      }
    }
  }

  lemma EntryArrival(b: Book, reference: U64)
    requires Coherent(b) && reference in b.orders
    ensures b.orders[reference].arrival < b.arrivals
    ensures b.orders[reference].key in b.queues && Lookup(b, reference).value in b.queues[b.orders[reference].key]
  {
    FindIsMember(QueueAt(b, b.orders[reference].key), b.orders[reference].arrival);
  }

  // Which orders are queued after a reduction.
  lemma ReduceMembers(b: Book, reference: U64, removed: U32, all: bool)
    requires Coherent(b) && Lookup(b, reference).Some?
    ensures var o := Lookup(b, reference).value;
            var l := b.orders[reference];
            var remaining := Remaining(o, removed, all);
            && o.arrival == l.arrival && o.reference == reference && o in QueueAt(b, l.key)
            && (forall x | x in QueueAt(b, l.key) && x.arrival == o.arrival :: x == o)
            && (forall k, x :: x in QueueAt(Reduce(b, reference, removed, all), k) <==>
                  (x in QueueAt(b, k) && !(k == l.key && x.arrival == o.arrival))
                  || (k == l.key && remaining != 0 && x == o.(shares := remaining)))
  {
    hide Find, Shrink, Sum;
    var l := b.orders[reference];
    EntryArrival(b, reference);
    FindIsMember(b.queues[l.key], l.arrival);
    ShrinkMembers(b.queues[l.key], l.arrival, Remaining(Lookup(b, reference).value, removed, all));
  }

  ghost predicate AllIndexed(b: Book) {
    forall k, o | o in QueueAt(b, k) :: Indexed(b, k, o)
  }

  lemma FaithfulIsAllIndexed(b: Book)
    ensures Faithful(b) <==> Coherent(b) && AllIndexed(b)
  {
    hide Coherent, Indexed;
    assert forall k, o :: o in QueueAt(b, k) <==> k in b.queues && o in b.queues[k];
  }

  lemma ReduceFaithful(b: Book, reference: U64, removed: U32, all: bool)
    requires Coherent(b)
    ensures Faithful(Reduce(b, reference, removed, all)) <==> Faithful(b)
  {
    hide Coherent, QueueAt;
    var b' := Reduce(b, reference, removed, all);
    ReduceCoherent(b, reference, removed, all);
    FaithfulIsAllIndexed(b);
    FaithfulIsAllIndexed(b');
    if Lookup(b, reference).Some? {
      ReduceMembers(b, reference, removed, all);
      var l, o := b.orders[reference], Lookup(b, reference).value;
      assert Indexed(b, l.key, o);
      if AllIndexed(b) {
        forall k, x | x in QueueAt(b', k)
          ensures Indexed(b', k, x)
        {
          assert x in QueueAt(b, k) ==> Indexed(b, k, x);
        }
      }
      if AllIndexed(b') {
        forall k, x | x in QueueAt(b, k)
          ensures Indexed(b, k, x)
        {
          assert x in QueueAt(b', k) ==> Indexed(b', k, x);
        }
      }
    }
  }

  /** One message keeps the full invariant exactly when the reference it inserts is fresh, and no
      message ever repairs a broken one. */
  lemma StepFaithful(b: Book, m: Message)
    requires Coherent(b)
    ensures Faithful(Step(b, m)) <==> Faithful(b) && Fresh(b, m)
  {
    hide Coherent, Faithful, Lookup, Insert, Reduce;
    if Accepts(b, m) {
      var p := Bookkeeping(b, m);
      match m {
        case AddMessage(a) => InsertFaithful(b, Key(a.side, a.price), a.reference, a.shares);
        case AddWithMpidMessage(a) =>
          InsertFaithful(b, Key(a.order.side, a.order.price), a.order.reference, a.order.shares);
        case ExecutedMessage(e) => ReduceFaithful(b, e.reference, e.executedShares, false);
        case ExecutedWithPriceMessage(e) => ReduceFaithful(b, e.executed.reference, e.executed.executedShares, false);
        case CancelMessage(c) => ReduceFaithful(b, c.reference, c.cancelledShares, false);
        case DeleteMessage(d) => ReduceFaithful(b, d.reference, 0, true);
        case ReplaceMessage(u) =>
          if u.original in b.orders {
            ReduceFaithful(b, u.original, 0, true);
            ReduceCoherent(b, u.original, 0, true);
            OriginalGone(b, u.original);
            InsertFaithful(Reduce(b, u.original, 0, true), Key(b.orders[u.original].key.side, u.price), u.replacement,
                           u.shares);
          }
        case TradeMessage(_) =>
      }
      SameBookSteps(b, m);
      SameBookFaithful(p, Step(b, m));
    }
  }

  lemma OriginalGone(b: Book, original: U64)
    requires Coherent(b) && original in b.orders
    ensures Reduce(b, original, 0, true).orders == b.orders - {original}
  {
  }

  lemma SameBookFaithful(b: Book, b': Book)
    requires SameBook(b, b')
    ensures Faithful(b) <==> Faithful(b')
  {
    SameBookCoherent(b, b');
    SameBookCoherent(b', b);
    assert forall k, o :: Indexed(b, k, o) <==> Indexed(b', k, o);
  }

  /** A run keeps the full invariant exactly when every reference it inserts is fresh. */
  lemma {:induction false} RunFaithful(b: Book, ms: seq<Message>)
    requires Faithful(b)
    ensures Faithful(Run(b, ms)) <==> FreshRun(b, ms)
  {
    if ms != [] {
      RunFaithful(b, ms[..|ms| - 1]);
      RunCoherent(b, ms[..|ms| - 1]);
      StepFaithful(Run(b, ms[..|ms| - 1]), ms[|ms| - 1]);
    }
  }

  // --------------------------------------------------------------------------------------------
  // The flat book: what is live, and in which order it arrived
  // --------------------------------------------------------------------------------------------

  /** A live order, without any queue: where it rests, when it arrived, what is left of it. */
  datatype LiveOrder = LiveOrder(key: Key, arrival: nat, shares: U32)

  /** The book with no levels and no queues: the live orders by reference, and the log of every
      insertion so far, adds and replaces alike, in arrival order. */
  datatype Flat = Flat(live: map<U64, LiveOrder>, log: seq<U64>)

  const EMPTY_FLAT := Flat(map[], [])

  function FlatInsert(f: Flat, k: Key, reference: U64, shares: U32): Flat {
    Flat(if reference in f.live then f.live else f.live[reference := LiveOrder(k, |f.log|, shares)],
         f.log + [reference])
  }

  function FlatReduce(f: Flat, reference: U64, removed: U32, all: bool): Flat {
    if reference !in f.live then f
    else
      var left: U32 := if all then 0 else (f.live[reference].shares - removed) % TWO_TO_THE_32;
      f.(live := if left == 0 then f.live - {reference}
                 else f.live[reference := f.live[reference].(shares := left)])
  }

  function FlatReplace(f: Flat, original: U64, replacement: U64, shares: U32, price: U32): Flat {
    if original !in f.live then f
    else FlatInsert(FlatReduce(f, original, 0, true), Key(f.live[original].key.side, price), replacement, shares)
  }

  /** One message into the flat book of a locate. */
  function FlatStep(f: Flat, locate: U16, m: Message): Flat {
    match m
    case AddMessage(a) =>
      if a.header.locate != locate then f else FlatInsert(f, Key(a.side, a.price), a.reference, a.shares)
    case AddWithMpidMessage(a) =>
      if a.order.header.locate != locate then f
      else FlatInsert(f, Key(a.order.side, a.order.price), a.order.reference, a.order.shares)
    case ExecutedMessage(e) =>
      if e.header.locate != locate then f else FlatReduce(f, e.reference, e.executedShares, false)
    case ExecutedWithPriceMessage(e) =>
      if e.executed.header.locate != locate then f
      else FlatReduce(f, e.executed.reference, e.executed.executedShares, false)
    case CancelMessage(c) =>
      if c.header.locate != locate then f else FlatReduce(f, c.reference, c.cancelledShares, false)
    case DeleteMessage(d) => if d.header.locate != locate then f else FlatReduce(f, d.reference, 0, true)
    case ReplaceMessage(u) =>
      if u.header.locate != locate then f else FlatReplace(f, u.original, u.replacement, u.shares, u.price)
    case _ => f
  }

  function FlatRun(f: Flat, locate: U16, ms: seq<Message>): Flat {
    if ms == [] then f else FlatStep(FlatRun(f, locate, ms[..|ms| - 1]), locate, ms[|ms| - 1])
  }

  /** The book refines the flat one: the same live references at the same places with the same
      shares, and a log that knows who arrived when. */
  ghost predicate Refines(b: Book, f: Flat) {
    && b.orders.Keys == f.live.Keys
    && |f.log| == b.arrivals
    && (forall r | r in b.orders :: LiveAgrees(b, f, r))
  }

  ghost predicate LiveAgrees(b: Book, f: Flat, r: U64)
    requires r in b.orders && r in f.live
  {
    && b.orders[r] == Location(f.live[r].key, f.live[r].arrival)
    && Lookup(b, r).Some? && Lookup(b, r).value.shares == f.live[r].shares
    && f.live[r].arrival < |f.log| && f.log[f.live[r].arrival] == r
  }

  lemma InsertRefines(b: Book, f: Flat, k: Key, reference: U64, shares: U32)
    requires Coherent(b) && Refines(b, f)
    ensures Refines(Insert(b, k, reference, shares), FlatInsert(f, k, reference, shares))
  {
    hide Coherent, Lookup;
    var b', f' := Insert(b, k, reference, shares), FlatInsert(f, k, reference, shares);
    forall r | r in b'.orders
      ensures LiveAgrees(b', f', r)
    {
      LookupInsert(b, k, reference, shares, r);
      assert r in b.orders ==> LiveAgrees(b, f, r);
    }
  }

  lemma ReduceRefines(b: Book, f: Flat, reference: U64, removed: U32, all: bool)
    requires Coherent(b) && Refines(b, f)
    ensures Refines(Reduce(b, reference, removed, all), FlatReduce(f, reference, removed, all))
  {
    hide Coherent, QueueAt, SetQueue, Find, Shrink;
    if reference in b.orders {
      var b', f' := Reduce(b, reference, removed, all), FlatReduce(f, reference, removed, all);
      assert LiveAgrees(b, f, reference);
      forall r | r in b'.orders
        ensures LiveAgrees(b', f', r)
      {
        LookupReduce(b, reference, removed, all, r);
        assert LiveAgrees(b, f, r);
      }
    }
  }

  lemma StepRefines(b: Book, f: Flat, m: Message)
    requires Coherent(b) && Refines(b, f)
    ensures Refines(Step(b, m), FlatStep(f, b.locate, m))
  {
    hide Coherent, Lookup, Insert, Reduce, FlatInsert, FlatReduce;
    if Accepts(b, m) {
      var p := Bookkeeping(b, m);
      match m {
        case AddMessage(a) => InsertRefines(b, f, Key(a.side, a.price), a.reference, a.shares);
        case AddWithMpidMessage(a) =>
          InsertRefines(b, f, Key(a.order.side, a.order.price), a.order.reference, a.order.shares);
        case ExecutedMessage(e) => ReduceRefines(b, f, e.reference, e.executedShares, false);
        case ExecutedWithPriceMessage(e) => ReduceRefines(b, f, e.executed.reference, e.executed.executedShares, false);
        case CancelMessage(c) => ReduceRefines(b, f, c.reference, c.cancelledShares, false);
        case DeleteMessage(d) => ReduceRefines(b, f, d.reference, 0, true);
        case ReplaceMessage(u) =>
          if u.original in b.orders {
            assert LiveAgrees(b, f, u.original);
            ReduceRefines(b, f, u.original, 0, true);
            ReduceCoherent(b, u.original, 0, true);
            InsertRefines(Reduce(b, u.original, 0, true), FlatReduce(f, u.original, 0, true),
                          Key(b.orders[u.original].key.side, u.price), u.replacement, u.shares);
          }
        case TradeMessage(_) =>
      }
      SameBookSteps(b, m);
      SameBookCoherent(p, Step(b, m));
    }
  }

  lemma SameBookSteps(b: Book, m: Message)
    requires Accepts(b, m)
    ensures SameBook(Bookkeeping(b, m), Step(b, m))
  {
  }

  /** The book refines the flat book after any run at all. */
  lemma {:induction false} RunRefines(b: Book, f: Flat, ms: seq<Message>)
    requires Coherent(b) && Refines(b, f)
    ensures Refines(Run(b, ms), FlatRun(f, b.locate, ms)) && Run(b, ms).locate == b.locate
  {
    if ms != [] {
      RunRefines(b, f, ms[..|ms| - 1]);
      RunCoherent(b, ms[..|ms| - 1]);
      StepRefines(Run(b, ms[..|ms| - 1]), FlatRun(f, b.locate, ms[..|ms| - 1]), ms[|ms| - 1]);
      StepKeepsLocate(Run(b, ms[..|ms| - 1]), ms[|ms| - 1]);
    }
  }

  lemma StepKeepsLocate(b: Book, m: Message)
    ensures Step(b, m).locate == b.locate
  {
  }

  // --------------------------------------------------------------------------------------------
  // Price-time priority
  // --------------------------------------------------------------------------------------------

  /** The insertions of the log that are still live at `k`, in arrival order, with what is left of
      each. */
  function LiveQueue(log: seq<U64>, live: map<U64, LiveOrder>, k: Key): seq<Order> {
    if log == [] then []
    else
      var n := |log| - 1;
      LiveQueue(log[..n], live, k) +
      (if log[n] in live && live[log[n]].arrival == n && live[log[n]].key == k
       then [Order(n, log[n], live[log[n]].shares)] else [])
  }

  lemma {:induction false} LiveQueueMembers(log: seq<U64>, live: map<U64, LiveOrder>, k: Key)
    ensures Sorted(LiveQueue(log, live, k))
    ensures forall o :: o in LiveQueue(log, live, k) <==>
              o.arrival < |log| && log[o.arrival] == o.reference
              && o.reference in live && live[o.reference] == LiveOrder(k, o.arrival, o.shares)
  {
    if log != [] {
      var n := |log| - 1;
      LiveQueueMembers(log[..n], live, k);
      var before := LiveQueue(log[..n], live, k);
      assert forall i | 0 <= i < |before| :: before[i] in before;
    }
  }

  lemma EmptyHasNoMember(q: seq<Order>)
    ensures q == [] || exists o :: o in q
  {
    if q != [] {
      assert q[0] in q;
    }
  }

  lemma {:induction false} SortedUnique(a: seq<Order>, c: seq<Order>)
    requires Sorted(a) && Sorted(c) && forall o :: o in a <==> o in c
    ensures a == c
  {
    if a == [] {
      EmptyHasNoMember(c);
    } else {
      assert a[0] in a;
      HeadOf(a);
      HeadOf(c);
      assert a[0] in c && c[0] in a;
      assert a[0] == c[0];
      SortedUnique(a[1..], c[1..]);
      assert a == [a[0]] + a[1..] && c == [c[0]] + c[1..];
    }
  }

  lemma HeadOf(q: seq<Order>)
    requires Sorted(q) && exists o :: o in q
    ensures q != [] && q[0] in q
    ensures forall o :: o in q[1..] <==> o in q && o != q[0]
    ensures forall o | o in q :: o == q[0] || q[0].arrival < o.arrival
  {
    assert forall o | o in q :: o == q[0] || o in q[1..];
  }

  /** The queue at every side and price is exactly the still-live insertions there in arrival order.
      As nothing but an insertion gives an order its arrival, executions and cancels never move one,
      and a replace joins the back even at its old price. */
  lemma QueueIsLiveQueue(b: Book, f: Flat, k: Key)
    requires Faithful(b) && Refines(b, f)
    ensures QueueAt(b, k) == LiveQueue(f.log, f.live, k)
  {
    LiveQueueMembers(f.log, f.live, k);
    forall o
      ensures o in QueueAt(b, k) <==> o in LiveQueue(f.log, f.live, k)
    {
      QueuedIsLive(b, f, k, o);
    }
    SortedUnique(QueueAt(b, k), LiveQueue(f.log, f.live, k));
  }

  // An order is queued exactly when the flat book has it live at that place.
  lemma QueuedIsLive(b: Book, f: Flat, k: Key, o: Order)
    requires Faithful(b) && Refines(b, f)
    ensures o in QueueAt(b, k) <==>
              o.arrival < |f.log| && f.log[o.arrival] == o.reference
              && o.reference in f.live && f.live[o.reference] == LiveOrder(k, o.arrival, o.shares)
  {
    hide LiveQueue, Sum, Shrink, Find, Sorted;
    FindIsMember(QueueAt(b, k), o.arrival);
    if o in QueueAt(b, k) {
      assert Indexed(b, k, o) && LiveAgrees(b, f, o.reference);
      assert Sorted(QueueAt(b, k));
    }
    if o.reference in f.live && f.live[o.reference] == LiveOrder(k, o.arrival, o.shares) {
      assert LiveAgrees(b, f, o.reference);
    }
  }

  ghost predicate QueuesAreLive(b: Book, f: Flat) {
    forall k :: QueueAt(b, k) == LiveQueue(f.log, f.live, k)
  }

  // A queue of live insertions holds no stray.
  lemma LiveQueuesAreFaithful(b: Book, f: Flat)
    requires Coherent(b) && Refines(b, f) && QueuesAreLive(b, f)
    ensures Faithful(b)
  {
    hide Coherent, LiveQueue, Sorted, Lookup;
    forall k, o | o in QueueAt(b, k)
      ensures Indexed(b, k, o)
    {
      LiveQueueMembers(f.log, f.live, k);
      assert LiveAgrees(b, f, o.reference);
    }
    FaithfulIsAllIndexed(b);
  }

  /** Price-time priority over whole runs from the empty book: every queue is the still-live insertions
      in arrival order exactly when the run inserts fresh references only. */
  lemma PriceTimePriorityHolds(locate: U16, ms: seq<Message>)
    ensures QueuesAreLive(Run(EMPTY_BOOK.(locate := locate), ms), FlatRun(EMPTY_FLAT, locate, ms))
       <==> FreshRun(EMPTY_BOOK.(locate := locate), ms)
  {
    hide Run, FlatRun, FreshRun, Refines, LiveQueue;
    var b := EMPTY_BOOK.(locate := locate);
    EmptyIsFaithful(locate);
    RunFaithful(b, ms);
    RunRefines(b, EMPTY_FLAT, ms);
    RunCoherent(b, ms);
    var end, flat := Run(b, ms), FlatRun(EMPTY_FLAT, locate, ms);
    if FreshRun(b, ms) {
      forall k
        ensures QueueAt(end, k) == LiveQueue(flat.log, flat.live, k)
      {
        QueueIsLiveQueue(end, flat, k);
      }
    }
    if QueuesAreLive(end, flat) {
      LiveQueuesAreFaithful(end, flat);
    }
  }

  lemma EmptyIsFaithful(locate: U16)
    ensures Faithful(EMPTY_BOOK.(locate := locate)) && Refines(EMPTY_BOOK.(locate := locate), EMPTY_FLAT)
  {
  }

  // --------------------------------------------------------------------------------------------
  // Top of book
  // --------------------------------------------------------------------------------------------

  /** The top of a side in terms of live orders alone: the best price any of them has, with the sum
      of the shares live there. */
  ghost predicate IsBestLive(f: Flat, side: Side, best: Option<BookLevel>) {
    match best
    case None => forall r | r in f.live :: f.live[r].key.side != side
    case Some(level) =>
      var k := Key(side, level.price);
      (exists r :: r in f.live && f.live[r].key == k)
      && (forall r | r in f.live && f.live[r].key.side == side ::
            f.live[r].key.price == level.price || Better(side, level.price, f.live[r].key.price))
      && level.shares == Sum(LiveQueue(f.log, f.live, k)) % TWO_TO_THE_64
  }

  /** best_bid and best_ask see through the levels: they report the best live price of their side,
      and nothing exactly when the side has no live order. */
  lemma BestIsBestLive(b: Book, f: Flat, side: Side, best: Option<BookLevel>)
    requires Faithful(b) && Refines(b, f)
    ensures IsBest(b, side, best) <==> IsBestLive(f, side, best)
  {
    hide Lookup, Sorted;
    forall r | r in f.live
      ensures f.live[r].key in b.queues
    {
      assert LiveAgrees(b, f, r);
      EntryArrival(b, r);
    }
    forall k | k in b.queues
      ensures exists r :: r in f.live && f.live[r].key == k
    {
      var o := b.queues[k][0];
      assert o in b.queues[k];
      assert Indexed(b, k, o) && LiveAgrees(b, f, o.reference);
    }
    if best.Some? {
      QueueIsLiveQueue(b, f, Key(side, best.value.price));
    }
  }

  /** The top of book over whole runs from the empty book. */
  lemma BestOverRuns(locate: U16, ms: seq<Message>, side: Side, best: Option<BookLevel>)
    requires FreshRun(EMPTY_BOOK.(locate := locate), ms)
    ensures IsBest(Run(EMPTY_BOOK.(locate := locate), ms), side, best)
       <==> IsBestLive(FlatRun(EMPTY_FLAT, locate, ms), side, best)
  {
    var b := EMPTY_BOOK.(locate := locate);
    RunFaithful(b, ms);
    RunRefines(b, EMPTY_FLAT, ms);
    BestIsBestLive(Run(b, ms), FlatRun(EMPTY_FLAT, locate, ms), side, best);
  }
}
