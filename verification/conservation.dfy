/** Accounting over whole runs: shares and orders are conserved, and level totals cannot wrap. */
module Conservation {
  import opened Bytes
  import opened Messages
  import opened BookModel
  import opened PriceTimePriority

  // --------------------------------------------------------------------------------------------
  // Shares resting in the whole book
  // --------------------------------------------------------------------------------------------

  ghost function RestingShares(queues: map<Key, seq<Order>>): nat {
    if queues == map[] then 0
    else
      var k :| k in queues;
      Sum(queues[k]) + RestingShares(queues - {k})
  }

  // The order of summation does not matter.
  lemma {:induction false} RestingAt(queues: map<Key, seq<Order>>, k: Key)
    requires k in queues
    ensures RestingShares(queues) == Sum(queues[k]) + RestingShares(queues - {k})
    decreases |queues|
  {
    hide Sum;
    var first :| first in queues && RestingShares(queues) == Sum(queues[first]) + RestingShares(queues - {first});
    if first != k {
      RestingAt(queues - {first}, k);
      RestingAt(queues - {k}, first);
      assert queues - {first} - {k} == queues - {k} - {first};
    }
  }

  lemma RestingSet(queues: map<Key, seq<Order>>, k: Key, q: seq<Order>)
    ensures RestingShares(SetQueue(queues, k, q)) + (if k in queues then Sum(queues[k]) else 0)
         == RestingShares(queues) + Sum(q)
  {
    if k in queues {
      RestingAt(queues, k);
    }
    if q == [] {
      assert k !in queues ==> queues - {k} == queues;
    } else {
      RestingAt(queues[k := q], k);
      assert queues[k := q] - {k} == queues - {k};
      assert k !in queues ==> queues - {k} == queues;
    }
  }

  lemma InsertConserves(b: Book, k: Key, reference: U64, shares: U32)
    ensures RestingShares(Insert(b, k, reference, shares).queues) == RestingShares(b.queues) + shares
  {
    FindAppend(QueueAt(b, k), Order(b.arrivals, reference, shares), 0);
    RestingSet(b.queues, k, QueueAt(b, k) + [Order(b.arrivals, reference, shares)]);
  }

  /** What a reduction takes out of the book. */
  function Removed(b: Book, reference: U64, removed: U32, all: bool): nat {
    match Lookup(b, reference)
    case None => 0
    case Some(o) => RemovedShares(o, removed, all)
  }

  // Over-removal wraps the order's shares round, and that is 2^32 shares from nowhere.
  lemma ReduceConserves(b: Book, reference: U64, removed: U32, all: bool)
    requires Coherent(b)
    ensures RestingShares(Reduce(b, reference, removed, all).queues) + Removed(b, reference, removed, all)
         == RestingShares(b.queues) + if all || Covers(b, reference, removed) then 0 else TWO_TO_THE_32
  {
    hide Sorted, Sum, Shrink;
    if Lookup(b, reference).Some? {
      var k, a, o := b.orders[reference].key, b.orders[reference].arrival, Lookup(b, reference).value;
      EntryArrival(b, reference);
      assert Sorted(b.queues[k]);
      ShrinkMembers(b.queues[k], a, Remaining(o, removed, all));
      RestingSet(b.queues, k, Shrink(b.queues[k], a, Remaining(o, removed, all)));
    }
  }

  // --------------------------------------------------------------------------------------------
  // Conservation of shares
  // --------------------------------------------------------------------------------------------

  /** Shares a message puts into the book: adds, and replaces that find their original. */
  function InsertedBy(b: Book, m: Message): nat {
    if !Accepts(b, m) then 0
    else
      match m
      case AddMessage(a) => a.shares
      case AddWithMpidMessage(a) => a.order.shares
      case ReplaceMessage(u) => if u.original in b.orders then u.shares else 0
      case _ => 0
  }

  /** Shares a message takes out: executions, cancels, deletes, and originals that are replaced. */
  function RemovedBy(b: Book, m: Message): nat {
    if !Accepts(b, m) then 0
    else
      match m
      case ExecutedMessage(e) => Removed(b, e.reference, e.executedShares, false)
      case ExecutedWithPriceMessage(e) => Removed(b, e.executed.reference, e.executed.executedShares, false)
      case CancelMessage(c) => Removed(b, c.reference, c.cancelledShares, false)
      case DeleteMessage(d) => Removed(b, d.reference, 0, true)
      case ReplaceMessage(u) => Removed(b, u.original, 0, true)
      case _ => 0
  }

  lemma StepConserves(b: Book, m: Message)
    requires Coherent(b)
    ensures RestingShares(Step(b, m).queues) + RemovedBy(b, m)
         == RestingShares(b.queues) + InsertedBy(b, m) + if NoOverRemoval(b, m) then 0 else TWO_TO_THE_32
  {
    hide Coherent, Insert, Reduce, Removed, Lookup;
    if Accepts(b, m) {
      SameBookSteps(b, m);
      match m {
        case AddMessage(a) => InsertConserves(b, Key(a.side, a.price), a.reference, a.shares);
        case AddWithMpidMessage(a) =>
          InsertConserves(b, Key(a.order.side, a.order.price), a.order.reference, a.order.shares);
        case ExecutedMessage(e) => ReduceConserves(b, e.reference, e.executedShares, false);
        case ExecutedWithPriceMessage(e) => ReduceConserves(b, e.executed.reference, e.executed.executedShares, false);
        case CancelMessage(c) => ReduceConserves(b, c.reference, c.cancelledShares, false);
        case DeleteMessage(d) => ReduceConserves(b, d.reference, 0, true);
        case ReplaceMessage(u) =>
          if u.original in b.orders {
            ReduceConserves(b, u.original, 0, true);
            InsertConserves(Reduce(b, u.original, 0, true), Key(b.orders[u.original].key.side, u.price), u.replacement,
                            u.shares);
          } else {
            NothingRemoved(b, u.original);
          }
        case TradeMessage(_) =>
      }
    }
  }

  lemma NothingRemoved(b: Book, reference: U64)
    requires reference !in b.orders
    ensures Removed(b, reference, 0, true) == 0
  {
  }

  function InsertedByRun(b: Book, ms: seq<Message>): nat {
    if ms == [] then 0 else InsertedByRun(b, ms[..|ms| - 1]) + InsertedBy(Run(b, ms[..|ms| - 1]), ms[|ms| - 1])
  }

  function RemovedByRun(b: Book, ms: seq<Message>): nat {
    if ms == [] then 0 else RemovedByRun(b, ms[..|ms| - 1]) + RemovedBy(Run(b, ms[..|ms| - 1]), ms[|ms| - 1])
  }

  predicate CoveredRun(b: Book, ms: seq<Message>) {
    if ms == [] then true
    else CoveredRun(b, ms[..|ms| - 1]) && NoOverRemoval(Run(b, ms[..|ms| - 1]), ms[|ms| - 1])
  }

  /** The shares put in are the shares still resting plus the shares taken out, exactly over the runs
      that never over-remove; any other run ends with shares from nowhere. References need not even be
      fresh. */
  lemma {:induction false} SharesConserved(b: Book, ms: seq<Message>)
    requires Coherent(b)
    ensures RestingShares(b.queues) + InsertedByRun(b, ms) <= RestingShares(Run(b, ms).queues) + RemovedByRun(b, ms)
    ensures RestingShares(b.queues) + InsertedByRun(b, ms) == RestingShares(Run(b, ms).queues) + RemovedByRun(b, ms)
       <==> CoveredRun(b, ms)
  {
    hide Coherent, RestingShares, Step, InsertedBy, RemovedBy, NoOverRemoval;
    if ms != [] {
      SharesConserved(b, ms[..|ms| - 1]);
      RunCoherent(b, ms[..|ms| - 1]);
      StepConserves(Run(b, ms[..|ms| - 1]), ms[|ms| - 1]);
    }
  }

  // --------------------------------------------------------------------------------------------
  // Conservation of orders
  // --------------------------------------------------------------------------------------------

  predicate Departs(b: Book, reference: U64, removed: U32, all: bool) {
    Lookup(b, reference).Some? && Remaining(Lookup(b, reference).value, removed, all) == 0
  }

  /** Whether an E, C, X or D message takes an order off the book. */
  predicate Departure(b: Book, m: Message) {
    Accepts(b, m) &&
    match m
    case ExecutedMessage(e) => Departs(b, e.reference, e.executedShares, false)
    case ExecutedWithPriceMessage(e) => Departs(b, e.executed.reference, e.executed.executedShares, false)
    case CancelMessage(c) => Departs(b, c.reference, c.cancelledShares, false)
    case DeleteMessage(d) => Departs(b, d.reference, 0, true)
    case _ => false
  }

  function Departures(b: Book, ms: seq<Message>): nat {
    if ms == [] then 0
    else Departures(b, ms[..|ms| - 1]) + (if Departure(Run(b, ms[..|ms| - 1]), ms[|ms| - 1]) then 1 else 0)
  }

  lemma ReduceCount(b: Book, reference: U64, removed: U32, all: bool)
    ensures var b' := Reduce(b, reference, removed, all);
            |b'.orders| + (if Departs(b, reference, removed, all) then 1 else 0) == |b.orders|
  {
    if Departs(b, reference, removed, all) {
      assert (b.orders - {reference}).Keys == b.orders.Keys - {reference};
      assert |(b.orders - {reference}).Keys| == |b.orders| - 1;
    }
  }

  lemma InsertCount(b: Book, k: Key, reference: U64, shares: U32)
    ensures |Insert(b, k, reference, shares).orders| == |b.orders| + if reference in b.orders then 0 else 1
  {
    var b' := Insert(b, k, reference, shares);
    assert b'.orders.Keys == b.orders.Keys + {reference};
    assert |b'.orders| == |b'.orders.Keys|;
  }

  /** One message: a fresh add brings one order, a departure takes one, a replace does both. A reference
      that is not fresh brings none, so the books balance exactly when it is. */
  lemma StepCount(b: Book, m: Message)
    requires Coherent(b)
    ensures |Step(b, m).orders| + (if Departure(b, m) then 1 else 0)
         <= |b.orders| + Step(b, m).stats.adds - b.stats.adds
    ensures |Step(b, m).orders| + (if Departure(b, m) then 1 else 0)
            == |b.orders| + Step(b, m).stats.adds - b.stats.adds
       <==> Fresh(b, m)
  {
    hide Coherent, Insert, Reduce, Departs, Lookup;
    if Accepts(b, m) {
      SameBookSteps(b, m);
      StepTallies(b, m);
      match m {
        case AddMessage(a) => InsertCount(b, Key(a.side, a.price), a.reference, a.shares);
        case AddWithMpidMessage(a) =>
          InsertCount(b, Key(a.order.side, a.order.price), a.order.reference, a.order.shares);
        case ExecutedMessage(e) => ReduceCount(b, e.reference, e.executedShares, false);
        case ExecutedWithPriceMessage(e) => ReduceCount(b, e.executed.reference, e.executed.executedShares, false);
        case CancelMessage(c) => ReduceCount(b, c.reference, c.cancelledShares, false);
        case DeleteMessage(d) => ReduceCount(b, d.reference, 0, true);
        case ReplaceMessage(u) =>
          if u.original in b.orders {
            OriginalDeparts(b, u.original);
            OriginalGone(b, u.original);
            ReduceCount(b, u.original, 0, true);
            InsertCount(Reduce(b, u.original, 0, true), Key(b.orders[u.original].key.side, u.price), u.replacement,
                        u.shares);
          }
        case TradeMessage(_) =>
      }
    }
  }

  /** Which tally a message raises, by one; all others stay. */
  lemma StepTallies(b: Book, m: Message)
    ensures var before, after := b.stats, Step(b, m).stats;
            var one := if Accepts(b, m) then 1 else 0;
            && after.adds == before.adds + (if m.AddMessage? || m.AddWithMpidMessage? then one else 0)
            && after.executions == before.executions
                                   + (if m.ExecutedMessage? || m.ExecutedWithPriceMessage? then one else 0)
            && after.cancels == before.cancels + (if m.CancelMessage? then one else 0)
            && after.deletes == before.deletes + (if m.DeleteMessage? then one else 0)
            && after.replacements == before.replacements
                                     + (if m.ReplaceMessage? && m.replace.original in b.orders then one else 0)
            && after.trades == before.trades + (if m.TradeMessage? then one else 0)
  {
    hide Insert, Reduce;
  }

  lemma OriginalDeparts(b: Book, reference: U64)
    requires Coherent(b) && reference in b.orders
    ensures Departs(b, reference, 0, true)
  {
  }

  /** Every add is an order still resting or one that an execution, cancel or delete took off the book,
      exactly over the runs of fresh references; over any other there are more adds than that. */
  lemma {:induction false} OrdersConserved(b: Book, ms: seq<Message>)
    requires Coherent(b)
    ensures |Run(b, ms).orders| + Departures(b, ms) <= |b.orders| + Run(b, ms).stats.adds - b.stats.adds
    ensures |Run(b, ms).orders| + Departures(b, ms) == |b.orders| + Run(b, ms).stats.adds - b.stats.adds
       <==> FreshRun(b, ms)
  {
    hide Coherent, Step, Departure, Fresh;
    if ms != [] {
      OrdersConserved(b, ms[..|ms| - 1]);
      RunCoherent(b, ms[..|ms| - 1]);
      StepCount(Run(b, ms[..|ms| - 1]), ms[|ms| - 1]);
    }
  }

  // --------------------------------------------------------------------------------------------
  // Level totals
  // --------------------------------------------------------------------------------------------

  lemma {:induction false} SumBound(q: seq<Order>)
    ensures Sum(q) <= |q| * (TWO_TO_THE_32 - 1)
  {
    if q != [] {
      SumBound(q[1..]);
    }
  }

  /** A queue is in arrival order, so it is no longer than the number of arrivals: strays included. */
  lemma QueueAtMostArrivals(b: Book, k: Key)
    requires Coherent(b)
    ensures |QueueAt(b, k)| <= b.arrivals
  {
    var q := QueueAt(b, k);
    if q != [] {
      ArrivalsSpread(q, |q| - 1);
      assert q[|q| - 1] in q;
    }
  }

  lemma {:induction false} ArrivalsSpread(q: seq<Order>, i: nat)
    requires Sorted(q) && i < |q|
    ensures q[i].arrival >= i
  {
    if i > 0 {
      ArrivalsSpread(q, i - 1);
    }
  }

  /** Queued orders have different references, all of them indexed. */
  lemma QueueAtMostOrders(b: Book, k: Key)
    requires Faithful(b)
    ensures |QueueAt(b, k)| <= |b.orders|
  {
    hide Lookup;
    var q := QueueAt(b, k);
    var i := 0;
    var references: set<U64> := {};
    while i < |q|
      invariant i <= |q| && |references| == i && references <= b.orders.Keys
      invariant forall r | r in references :: exists j :: 0 <= j < i && q[j].reference == r
    {
      assert q[i] in q && Indexed(b, k, q[i]);
      forall j | 0 <= j < i
        ensures q[j].reference != q[i].reference
      {
        assert q[j] in q && Indexed(b, k, q[j]) && q[j].arrival < q[i].arrival;
      }
      references := references + {q[i].reference};
      i := i + 1;
    }
    assert |b.orders.Keys - references| == |b.orders.Keys| - |references|;
    assert |b.orders| == |b.orders.Keys|;
  }

  lemma ShortQueueDoesNotWrap(q: seq<Order>)
    requires |q| <= TWO_TO_THE_32
    ensures Sum(q) < TWO_TO_THE_64
  {
    SumBound(q);
    MulMonotone(|q|, TWO_TO_THE_32, TWO_TO_THE_32 - 1);
  }

  /** With at most 2^32 live orders no level total can reach 2^64: the 64-bit total is the true sum. */
  lemma TotalDoesNotWrap(b: Book, k: Key)
    requires Faithful(b) && |b.orders| <= TWO_TO_THE_32
    ensures Sum(QueueAt(b, k)) <= |b.orders| * (TWO_TO_THE_32 - 1)
    ensures Sum(QueueAt(b, k)) < TWO_TO_THE_64
  {
    SumBound(QueueAt(b, k));
    QueueAtMostOrders(b, k);
    MulMonotone(|QueueAt(b, k)|, |b.orders|, TWO_TO_THE_32 - 1);
  }
}
